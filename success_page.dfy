/** The verify-on-landing step of src/pages/SuccessPage.tsx: the effect that calls
    `verifyTransaction` with the route's reference, and the choice of view. */
module SuccessPage {
  import opened Types
  import opened AppContext

  /** The link of the "Download Now" button. */
  function DownloadLink(token: string): string
  {
    "/download/" + token
  }

  /** What the page shows: the spinner while loading, then the download link or the failure card. */
  datatype SuccessScreen = Verifying | Ready(downloadLink: string) | Failed

  function ShowSuccess(loading: bool, transaction: Option<Transaction>): (s: SuccessScreen)
    ensures s.Verifying? <==> loading
    ensures s.Ready? <==> !loading && transaction.Some? && transaction.value.verified
    ensures s.Ready? ==> s.downloadLink == DownloadLink(transaction.value.downloadToken)
  {
    if loading then Verifying
    else if transaction.Some? && transaction.value.verified then Ready(DownloadLink(transaction.value.downloadToken))
    else Failed
  }

  /** JavaScript truthiness of the route parameter: a missing or empty reference is false. */
  predicate Present(reference: Option<string>)
  {
    reference.Some? && reference.value != ""
  }

  /** After verification the page succeeds exactly when some row carries the reference,
      and its link carries the token minted for the last such row. */
  lemma AfterVerification(ts: seq<Transaction>, reference: string, mint: nat -> string)
    ensures ShowSuccess(false, LastVerified(ts, reference, mint)).Ready? <==>
      exists i :: 0 <= i < |ts| && ts[i].reference == reference
    ensures forall i :: IsLastWith(ts, reference, i) ==>
      ShowSuccess(false, LastVerified(ts, reference, mint)) == Ready(DownloadLink(mint(i)))
  {
    forall i | IsLastWith(ts, reference, i)
      ensures ShowSuccess(false, LastVerified(ts, reference, mint)) == Ready(DownloadLink(mint(i)))
    {
      VerifiedLedgerShape(ts, reference, mint, i);
    }
    var r := LastVerified(ts, reference, mint);
    if r.Some? {
      var i := LastIndexWith(ts, reference);
      VerifiedLedgerShape(ts, reference, mint, i);
    }
  }

  /** The position of the last row with the reference, when there is one. */
  ghost function LastIndexWith(ts: seq<Transaction>, reference: string): (i: int)
    requires exists j :: 0 <= j < |ts| && ts[j].reference == reference
    ensures IsLastWith(ts, reference, i)
    decreases |ts|
  {
    var n := |ts| - 1;
    if ts[n].reference == reference then n
    else
      assert exists j :: 0 <= j < |ts[..n]| && ts[..n][j].reference == reference by {
        var j :| 0 <= j < |ts| && ts[j].reference == reference;
        assert j < n && ts[..n][j] == ts[j];
      }
      LastIndexWith(ts[..n], reference)
  }

  /** The page's two state slots. */
  class SuccessView {
    var loading: bool
    var transaction: Option<Transaction>

    /** The page starts loading, with no transaction. */
    constructor ()
      ensures loading && transaction == None
    {
      loading := true;
      transaction := None;
    }

    /** The landing effect: only with a truthy reference, verify exactly that reference,
        store the returned row, and only then stop loading. */
    method Land(reference: Option<string>, store: Store, mint: nat -> string)
      requires store.Valid()
      modifies this, store
      ensures store.Valid() && store.products == old(store.products)
      ensures Present(reference) ==>
        && store.transactions == VerifiedLedger(old(store.transactions), reference.value, mint)
        && transaction == LastVerified(old(store.transactions), reference.value, mint)
        && !loading
      ensures !Present(reference) ==>
        && store.transactions == old(store.transactions)
        && transaction == old(transaction)
        && loading == old(loading)
    {
      if Present(reference) {
        var verified := store.VerifyTransaction(reference.value, mint);
        transaction := verified;
        loading := false;
      }
    }
  }
}
