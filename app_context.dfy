/** The in-memory provider of src/context/AppContext.tsx: a product catalog and a
    transaction ledger, with the operations that change and read them. Fresh ids,
    timestamps and tokens (faker uuids and `new Date()`) are supplied by the caller. */
module AppContext {
  import opened Types
  import opened Arrays

  /** The product `addProduct` builds: every supplied field plus the fresh id and timestamp. */
  function NewProduct(data: ProductData, id: string, createdAt: int): (p: Product)
    ensures Supplied(p) == data && p.id == id && p.createdAt == createdAt
  {
    Product(id, data.title, data.description, data.price, data.thumbnailUrl, data.fileUrl, createdAt)
  }

  /** The fields of a product that its creator supplied. */
  function Supplied(p: Product): ProductData
  {
    ProductData(p.title, p.description, p.price, p.thumbnailUrl, p.fileUrl)
  }

  /** The record `createTransaction` builds: the caller's fields, a fresh id and
      timestamp, not verified and with the empty token. */
  function NewTransaction(data: TransactionData, id: string, createdAt: int): (t: Transaction)
    ensures Ordered(t) == data && t.id == id && t.createdAt == createdAt
    ensures !t.verified && t.downloadToken == ""
  {
    Transaction(id, data.email, data.productId, data.reference, false, "", createdAt)
  }

  /** The fields of a transaction that checkout supplied. */
  function Ordered(t: Transaction): TransactionData
  {
    TransactionData(t.email, t.productId, t.reference)
  }

  /** The `find` test of `getProductById`. */
  function HasId(id: string): Product -> bool
  {
    (p: Product) => p.id == id
  }

  /** The `filter` test of `deleteProduct`. */
  function LacksId(id: string): Product -> bool
  {
    (p: Product) => p.id != id
  }

  /** A transaction after verification: verified, carrying the given token, otherwise as before. */
  function MarkVerified(t: Transaction, token: string): Transaction
  {
    t.(verified := true, downloadToken := token)
  }

  /** The ledger after `verifyTransaction(reference)`: every row with that reference is
      verified and receives the token `mint(i)` for its position `i`; other rows are kept. */
  function VerifiedLedger(ts: seq<Transaction>, reference: string, mint: nat -> string): seq<Transaction>
  {
    seq(|ts|, i requires 0 <= i < |ts| =>
      if ts[i].reference == reference then MarkVerified(ts[i], mint(i)) else ts[i])
  }

  /** `i` is the position of the last row carrying `reference`. */
  ghost predicate IsLastWith(ts: seq<Transaction>, reference: string, i: int)
  {
    0 <= i < |ts| && ts[i].reference == reference &&
    forall j :: i < j < |ts| ==> ts[j].reference != reference
  }

  /** What `verifyTransaction(reference)` returns: the updated row written last by its `map`. */
  function LastVerified(ts: seq<Transaction>, reference: string, mint: nat -> string): (r: Option<Transaction>)
    ensures r.None? <==> forall i :: 0 <= i < |ts| ==> ts[i].reference != reference
    ensures forall i :: IsLastWith(ts, reference, i) ==> r == Some(VerifiedLedger(ts, reference, mint)[i])
    decreases |ts|
  {
    if |ts| == 0 then None
    else
      var n := |ts| - 1;
      if ts[n].reference == reference then Some(MarkVerified(ts[n], mint(n)))
      else
        var prefix := ts[..n];
        assert forall i :: IsLastWith(ts, reference, i) ==> IsLastWith(prefix, reference, i);
        LastVerified(prefix, reference, mint)
  }

  /** The ledger invariant the provider keeps: a row that is not verified has the empty token. */
  ghost predicate PendingHaveNoToken(ts: seq<Transaction>)
  {
    forall i :: 0 <= i < |ts| ==> !ts[i].verified ==> ts[i].downloadToken == ""
  }

  /** The body of `verifyTransaction`: a `map` over the ledger that also records, in
      `updated`, each row it rewrites, so `updated` ends as the last one. */
  method MapVerify(ts: seq<Transaction>, reference: string, mint: nat -> string)
    returns (result: seq<Transaction>, updated: Option<Transaction>)
    ensures result == VerifiedLedger(ts, reference, mint)
    ensures updated == LastVerified(ts, reference, mint)
  {
    result, updated := [], None;
    var i := 0;
    while i < |ts|
      invariant 0 <= i <= |ts|
      invariant result == VerifiedLedger(ts[..i], reference, mint)
      invariant updated == LastVerified(ts[..i], reference, mint)
    {
      var t := ts[i];
      if t.reference == reference {
        var u := MarkVerified(t, mint(i));
        updated := Some(u);
        result := result + [u];
      } else {
        result := result + [t];
      }
      assert ts[..i + 1][..i] == ts[..i];
      i := i + 1;
    }
    assert ts[..i] == ts;
  }

  /** Verification keeps the length and order of the ledger, rewrites exactly the rows
      with the reference, and leaves every other row as it was. */
  lemma VerifiedLedgerShape(ts: seq<Transaction>, reference: string, mint: nat -> string, i: nat)
    requires i < |ts|
    ensures |VerifiedLedger(ts, reference, mint)| == |ts|
    ensures ts[i].reference == reference ==>
      VerifiedLedger(ts, reference, mint)[i] == MarkVerified(ts[i], mint(i))
    ensures ts[i].reference != reference ==> VerifiedLedger(ts, reference, mint)[i] == ts[i]
  {
  }

  /** Verifying a reference that no row carries changes nothing and returns nothing. */
  lemma VerifyUnknownReference(ts: seq<Transaction>, reference: string, mint: nat -> string)
    requires forall i :: 0 <= i < |ts| ==> ts[i].reference != reference
    ensures VerifiedLedger(ts, reference, mint) == ts
    ensures LastVerified(ts, reference, mint) == None
  {
  }

  /** Verifying a reference again replaces the tokens the first verification gave. */
  lemma ReverifyReplacesTokens(ts: seq<Transaction>, reference: string, first: nat -> string, second: nat -> string)
    ensures VerifiedLedger(VerifiedLedger(ts, reference, first), reference, second)
         == VerifiedLedger(ts, reference, second)
  {
    var once := VerifiedLedger(ts, reference, first);
    forall i | 0 <= i < |ts|
      ensures VerifiedLedger(once, reference, second)[i] == VerifiedLedger(ts, reference, second)[i]
    {
      VerifiedLedgerShape(ts, reference, first, i);
      VerifiedLedgerShape(once, reference, second, i);
      VerifiedLedgerShape(ts, reference, second, i);
    }
  }

  /** Verifying a ledger with one more row at the end verifies the old rows as before
      and the new row on its own. */
  lemma VerifiedLedgerSnoc(ts: seq<Transaction>, u: Transaction, reference: string, mint: nat -> string)
    ensures VerifiedLedger(ts + [u], reference, mint)
         == VerifiedLedger(ts, reference, mint)
          + [if u.reference == reference then MarkVerified(u, mint(|ts|)) else u]
  {
  }

  /** When the reference was already used, verification marks the earlier rows as well;
      the rows are verified and the last one is returned. */
  lemma {:induction false} DuplicateReferenceVerifiesBoth(ts: seq<Transaction>, a: Transaction, b: Transaction, mint: nat -> string)
    requires a.reference == b.reference
    ensures var after := VerifiedLedger(ts + [a, b], a.reference, mint);
      after[|ts|] == MarkVerified(a, mint(|ts|)) && after[|ts| + 1] == MarkVerified(b, mint(|ts| + 1))
    ensures LastVerified(ts + [a, b], a.reference, mint) == Some(MarkVerified(b, mint(|ts| + 1)))
  {
    assert IsLastWith(ts + [a, b], a.reference, |ts| + 1);
  }

  /** Both ledger updates keep the invariant. */
  lemma PendingHaveNoTokenKept(ts: seq<Transaction>, data: TransactionData, id: string, createdAt: int,
                               reference: string, mint: nat -> string)
    requires PendingHaveNoToken(ts)
    ensures PendingHaveNoToken(ts + [NewTransaction(data, id, createdAt)])
    ensures PendingHaveNoToken(VerifiedLedger(ts, reference, mint))
  {
    var after := VerifiedLedger(ts, reference, mint);
    forall i | 0 <= i < |after| && !after[i].verified
      ensures after[i].downloadToken == ""
    {
      VerifiedLedgerShape(ts, reference, mint, i);
    }
  }

  /** The provider: the two state slots `products` and `transactions`. */
  class Store {
    var products: seq<Product>
    var transactions: seq<Transaction>

    ghost predicate Valid()
      reads this
    {
      PendingHaveNoToken(transactions)
    }

    /** The provider starts with the given catalog (mock data in the source) and an empty ledger. */
    constructor (initialProducts: seq<Product>)
      ensures Valid()
      ensures products == initialProducts && transactions == []
    {
      products := initialProducts;
      transactions := [];
    }

    /** `addProduct`: the new product goes in front of the catalog. */
    method AddProduct(data: ProductData, id: string, createdAt: int)
      requires Valid()
      modifies this
      ensures Valid()
      ensures products == [NewProduct(data, id, createdAt)] + old(products)
      ensures transactions == old(transactions)
    {
      products := [NewProduct(data, id, createdAt)] + products;
    }

    /** `deleteProduct`: keep the products whose id differs. */
    method DeleteProduct(id: string)
      requires Valid()
      modifies this
      ensures Valid()
      ensures products == Filter(old(products), LacksId(id))
      ensures transactions == old(transactions)
    {
      products := Filter(products, LacksId(id));
    }

    /** `getProductById`: the first product with the id, or None when no product has it. */
    function GetProductById(id: string): (r: Option<Product>)
      reads this
      ensures r.None? <==> forall i :: 0 <= i < |products| ==> products[i].id != id
      ensures forall i :: IsFirst(products, HasId(id), i) ==> r == Some(products[i])
    {
      Find(products, HasId(id))
    }

    /** `createTransaction`: append an unverified row; a reference already in the ledger is not rejected. */
    method CreateTransaction(data: TransactionData, id: string, createdAt: int) returns (t: Transaction)
      requires Valid()
      modifies this
      ensures Valid()
      ensures t == NewTransaction(data, id, createdAt)
      ensures transactions == old(transactions) + [t]
      ensures products == old(products)
    {
      t := NewTransaction(data, id, createdAt);
      PendingHaveNoTokenKept(transactions, data, id, createdAt, "", x => "");
      transactions := transactions + [t];
    }

    /** `verifyTransaction`: verify and re-token every row with the reference, return the last one. */
    method VerifyTransaction(reference: string, mint: nat -> string) returns (updated: Option<Transaction>)
      requires Valid()
      modifies this
      ensures Valid()
      ensures transactions == VerifiedLedger(old(transactions), reference, mint)
      ensures updated == LastVerified(old(transactions), reference, mint)
      ensures products == old(products)
    {
      var next;
      next, updated := MapVerify(transactions, reference, mint);
      PendingHaveNoTokenKept(transactions, TransactionData("", "", ""), "", 0, reference, mint);
      transactions := next;
    }
  }
}
