/** The token check of src/pages/DownloadPage.tsx: a `find` over the ledger followed
    by a catalog lookup, and the page state it writes (`isValid`, `fileUrl`). */
module DownloadPage {
  import opened Types
  import opened Arrays
  import opened AppContext

  /** The outcome of the check: valid with the file to offer, or not valid. */
  datatype LinkCheck = Authorised(fileUrl: string) | Rejected

  /** The `find` test of the page: the row carries the token and is verified. */
  function Authorises(token: string): Transaction -> bool
  {
    (t: Transaction) => t.downloadToken == token && t.verified
  }

  /** The decision of the effect: the FIRST verified row carrying the token must link to a
      product that `getProductById` still finds, and then that product's file is offered. */
  function CheckToken(products: seq<Product>, transactions: seq<Transaction>, token: string): (r: LinkCheck)
    ensures r.Authorised? <==> exists i, k :: IsFirst(transactions, Authorises(token), i)
                                      && IsFirst(products, HasId(transactions[i].productId), k)
    ensures forall i, k :: IsFirst(transactions, Authorises(token), i)
                        && IsFirst(products, HasId(transactions[i].productId), k)
                       ==> r == Authorised(products[k].fileUrl)
  {
    match Find(transactions, Authorises(token))
    case None => Rejected
    case Some(t) =>
      match Find(products, HasId(t.productId))
      case None => Rejected
      case Some(p) => Authorised(p.fileUrl)
  }

  /** When at most one verified row carries the token, the link is valid exactly when
      some verified row carries it and links to a product in the catalog. */
  lemma CheckTokenUniqueToken(products: seq<Product>, transactions: seq<Transaction>, token: string)
    requires forall i, j ::
      (0 <= i < |transactions| && 0 <= j < |transactions| &&
       Authorises(token)(transactions[i]) && Authorises(token)(transactions[j])) ==> i == j
    ensures CheckToken(products, transactions, token).Authorised? <==>
      exists i, k :: LinksTo(products, transactions, token, i, k)
  {
    var r := CheckToken(products, transactions, token);
    if i, k :| LinksTo(products, transactions, token, i, k) {
      assert IsFirst(transactions, Authorises(token), i);
      var has := HasId(transactions[i].productId);
      assert has(products[k]);
      var p := Find(products, has);
      var k' :| IsFirst(products, has, k') && p.value == products[k'];
      assert r == Authorised(products[k'].fileUrl);
    }
    if r.Authorised? {
      var i, k :| IsFirst(transactions, Authorises(token), i)
               && IsFirst(products, HasId(transactions[i].productId), k);
      assert LinksTo(products, transactions, token, i, k);
    }
  }

  /** Row `i` is verified, carries the token and links to the product at position `k`. */
  ghost predicate LinksTo(products: seq<Product>, transactions: seq<Transaction>, token: string, i: int, k: int)
  {
    0 <= i < |transactions| && 0 <= k < |products| &&
    transactions[i].verified && transactions[i].downloadToken == token &&
    products[k].id == transactions[i].productId
  }

  /** A row that is not verified never authorises a download: appending one, as
      `createTransaction` does, changes the outcome for no token. */
  lemma PendingNeverAuthorises(products: seq<Product>, transactions: seq<Transaction>, u: Transaction, token: string)
    requires !u.verified
    ensures CheckToken(products, transactions + [u], token) == CheckToken(products, transactions, token)
  {
    FindAppend(transactions, [u], Authorises(token));
  }

  /** Deleting the product that the deciding row links to makes the link invalid. */
  lemma DeletedProductRevokes(products: seq<Product>, transactions: seq<Transaction>, token: string, i: nat)
    requires IsFirst(transactions, Authorises(token), i)
    ensures CheckToken(Filter(products, LacksId(transactions[i].productId)), transactions, token) == Rejected
  {
    var id := transactions[i].productId;
    var rest := Filter(products, LacksId(id));
    assert forall k :: 0 <= k < |rest| ==> rest[k].id != id;
  }

  /** Deleting any other product leaves the outcome of the check as it was. */
  lemma DeletingOtherProductKeeps(products: seq<Product>, transactions: seq<Transaction>, token: string, i: nat, id: string)
    requires IsFirst(transactions, Authorises(token), i)
    requires id != transactions[i].productId
    ensures CheckToken(Filter(products, LacksId(id)), transactions, token) == CheckToken(products, transactions, token)
  {
    FindAfterFilter(products, LacksId(id), HasId(transactions[i].productId));
  }

  /** What the page shows: a loader while `isValid` is null, then the download button or the error card. */
  datatype DownloadScreen = Loading | DownloadReady(href: string) | InvalidLink

  function ShowDownload(isValid: Option<bool>, fileUrl: string): (s: DownloadScreen)
    ensures s.Loading? <==> isValid.None?
    ensures s.DownloadReady? <==> isValid == Some(true)
    ensures s.DownloadReady? ==> s.href == fileUrl
  {
    match isValid
    case None => Loading
    case Some(valid) => if valid then DownloadReady(fileUrl) else InvalidLink
  }

  /** The page's two state slots. */
  class DownloadView {
    var isValid: Option<bool>
    var fileUrl: string

    /** `isValid` starts as null (loading) and `fileUrl` as the empty string. */
    constructor ()
      ensures isValid == None && fileUrl == ""
    {
      isValid := None;
      fileUrl := "";
    }

    /** The validation effect: it reads the store and writes only the page state. A
        missing route token matches no row; a rejected link leaves `fileUrl` as it was. */
    method Validate(token: Option<string>, store: Store)
      modifies this
      ensures var r := if token.Some? then CheckToken(store.products, store.transactions, token.value) else Rejected;
        isValid == Some(r.Authorised?) && fileUrl == (if r.Authorised? then r.fileUrl else old(fileUrl))
    {
      // `t.downloadToken === undefined` holds of no row, so a missing token finds nothing.
      var t := if token.Some? then Find(store.transactions, Authorises(token.value)) else None;
      if t.Some? {
        var product := store.GetProductById(t.value.productId);
        if product.Some? {
          isValid := Some(true);
          fileUrl := product.value.fileUrl;
        } else {
          isValid := Some(false);
        }
      } else {
        isValid := Some(false);
      }
    }
  }
}
