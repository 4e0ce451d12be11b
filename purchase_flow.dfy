/** The purchase-to-download flow across the store and the two pages: checkout records
    the purchase, the success page verifies it and links to `/download/<token>`, and
    the download page checks that token. */
module PurchaseFlow {
  import opened Types
  import opened Arrays
  import opened AppContext
  import opened DownloadPage
  import opened SuccessPage

  /** The `download/:token` route of src/App.tsx: the token is the one non-empty path segment after the prefix. */
  function TokenOfPath(path: string): (r: Option<string>)
    ensures r.Some? ==> DownloadLink(r.value) == path && r.value != "" && '/' !in r.value
  {
    var prefix := "/download/";
    if |path| > |prefix| && path[..|prefix|] == prefix && '/' !in path[|prefix|..] then
      assert path == prefix + path[|prefix|..];
      Some(path[|prefix|..])
    else None
  }

  /** The link the success page builds leads back to the same token. */
  lemma LinkRoundTrip(token: string)
    requires token != "" && '/' !in token
    ensures TokenOfPath(DownloadLink(token)) == Some(token)
  {
    var link := DownloadLink(token);
    assert link[..|"/download/"|] == "/download/";
    assert link[|"/download/"|..] == token;
  }

  /** A token minted for ledger position `n` is fresh: no earlier row carries it or is minted it. */
  ghost predicate FreshToken(ts: seq<Transaction>, mint: nat -> string)
  {
    forall i :: 0 <= i < |ts| ==> ts[i].downloadToken != mint(|ts|) && mint(i) != mint(|ts|)
  }

  /** Recording a purchase, verifying its reference and checking the token that
      verification returned: the link is valid exactly when the product is still in the
      catalog, and then it offers that product's file. Earlier rows with the same
      reference do not change this. */
  lemma PurchaseThenCheck(products: seq<Product>, ts: seq<Transaction>,
                             data: TransactionData, id: string, createdAt: int, mint: nat -> string)
    requires FreshToken(ts, mint)
    ensures var u := NewTransaction(data, id, createdAt);
      LastVerified(ts + [u], data.reference, mint) == Some(MarkVerified(u, mint(|ts|)))
    ensures var after := VerifiedLedger(ts + [NewTransaction(data, id, createdAt)], data.reference, mint);
      CheckToken(products, after, mint(|ts|)) ==
        match Find(products, HasId(data.productId))
        case Some(p) => Authorised(p.fileUrl)
        case None => Rejected
  {
    var u := NewTransaction(data, id, createdAt);
    var t := mint(|ts|);
    var before := VerifiedLedger(ts, data.reference, mint);
    var after := VerifiedLedger(ts + [u], data.reference, mint);
    assert IsLastWith(ts + [u], data.reference, |ts|);
    VerifiedLedgerShape(ts + [u], data.reference, mint, |ts|);
    VerifiedLedgerSnoc(ts, u, data.reference, mint);
    assert after == before + [MarkVerified(u, t)];
    forall i | 0 <= i < |before|
      ensures !Authorises(t)(before[i])
    {
      VerifiedLedgerShape(ts, data.reference, mint, i);
    }
    FindAppend(before, [MarkVerified(u, t)], Authorises(t));
    assert Find(after, Authorises(t)) == Some(MarkVerified(u, t));
  }

  /** The same flow when the product is deleted after payment: the link is invalid. */
  lemma PurchaseDeleteThenCheck(products: seq<Product>, ts: seq<Transaction>,
                                data: TransactionData, id: string, createdAt: int, mint: nat -> string)
    requires FreshToken(ts, mint)
    ensures var after := VerifiedLedger(ts + [NewTransaction(data, id, createdAt)], data.reference, mint);
      CheckToken(Filter(products, LacksId(data.productId)), after, mint(|ts|)) == Rejected
  {
    var rest := Filter(products, LacksId(data.productId));
    PurchaseThenCheck(rest, ts, data, id, createdAt, mint);
    assert forall k :: 0 <= k < |rest| ==> rest[k].id != data.productId;
  }

  /** The whole flow on a fresh provider: the product page records the purchase of a
      product it found, the success page verifies the reference, optionally the
      administrator deletes the product, and the download page opens the link. */
  method BuyAndDownload(catalog: seq<Product>, data: TransactionData, txId: string, now: int,
                        mint: nat -> string, deleteFirst: bool)
    returns (success: SuccessScreen, download: DownloadScreen)
    requires exists k :: 0 <= k < |catalog| && catalog[k].id == data.productId
    requires data.reference != ""
    requires mint(0) != "" && '/' !in mint(0)
    ensures success == Ready(DownloadLink(mint(0)))
    ensures Find(catalog, HasId(data.productId)).Some?
    ensures download == if deleteFirst then InvalidLink
                        else DownloadReady(Find(catalog, HasId(data.productId)).value.fileUrl)
  {
    var k :| 0 <= k < |catalog| && catalog[k].id == data.productId;
    assert HasId(data.productId)(catalog[k]);
    var store := new Store(catalog);
    var _ := store.CreateTransaction(data, txId, now);
    var successView := new SuccessView();
    successView.Land(Some(data.reference), store, mint);
    success := ShowSuccess(successView.loading, successView.transaction);
    PurchaseThenCheck(catalog, [], data, txId, now, mint);
    if deleteFirst {
      store.DeleteProduct(data.productId);
      PurchaseDeleteThenCheck(catalog, [], data, txId, now, mint);
    }
    var downloadView := new DownloadView();
    LinkRoundTrip(mint(0));
    downloadView.Validate(TokenOfPath(success.downloadLink), store);
    download := ShowDownload(downloadView.isValid, downloadView.fileUrl);
  }
}
