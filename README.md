# Purchase ledger and download authorisation of a digital-goods storefront

This project models the in-memory core of a React storefront for digital files
(`src/context/AppContext.tsx`, `src/pages/SuccessPage.tsx`,
`src/pages/DownloadPage.tsx`) and proves properties of it in Dafny.

- **The store** (`AppContext.Store`) is the provider's two state slots, `products`
  and `transactions`, as `seq` fields. Its methods are `addProduct`, `deleteProduct`,
  `createTransaction` and `verifyTransaction`. Each method's contract gives the new
  state as a function of the old one. `getProductById` is a function that reads the store.
- **Array methods.** JavaScript's `find` and `filter` are the generic functions
  `Arrays.Find` and `Arrays.Filter`. They carry first-match and membership contracts,
  plus laws about concatenation and filtering before a search.
- **Verification.** The `map` inside `verifyTransaction` is the loop `MapVerify`. It is
  proved against the specification functions `VerifiedLedger` and `LastVerified`.
  Each row carrying the reference is verified and given the token `mint(i)` for its
  position `i`. The method returns the row it rewrote last.
- **The download page.** The token check is the pure `CheckToken`. The first verified
  row with the token must link to a product that `getProductById` still finds. The
  effect that writes `isValid`/`fileUrl` is `DownloadView.Validate`.
- **The success page.** The landing effect is `SuccessView.Land`. It verifies only
  when a truthy reference is present. The choice between link and failure is the pure
  `ShowSuccess`.
- **End to end.** `PurchaseFlow` proves that create → verify → check succeeds exactly
  when the product still exists, and fails after the product is deleted.
  `BuyAndDownload` runs the same steps on the classes.

The model keeps what the code does. References may repeat. Verifying again replaces
tokens. Checking a token never consumes it: `Validate` modifies only the page state,
never the store. A design that forbids duplicate references, keeps tokens on
re-verification or makes links single-use is not what the code does, so it is not
modelled.

Fresh values are parameters:
- `faker.string.uuid()` ids become `id`.
- `new Date()` becomes `createdAt: int` (milliseconds).
- Download tokens come from the function `mint: nat -> string`, indexed by ledger
  position. The source calls faker once per matching row.

Field names follow the camelCase records of `src/context/AppContext.tsx`. The
snake_case declarations in `src/types/index.ts` disagree and are not used.

## Model

| member | source | states |
|---|---|---|
| Arrays.Find | src/context/AppContext.tsx:52-54 | `find`: None exactly when no element passes; otherwise the value is an element that passes and has no passing element before it; that first passing element is the value |
| Arrays.Filter | src/context/AppContext.tsx:48-50 | `filter`: never longer than the input; every kept element is in the input and passes; every passing element of the input is kept |
| Arrays.FilterAppend | src/context/AppContext.tsx:49 | filtering distributes over concatenation, so kept products keep their relative order |
| Arrays.FilterKeepsAll | src/context/AppContext.tsx:49 | when every element passes, filtering changes nothing (deleting an absent id leaves the catalog unchanged) |
| Arrays.FilterIdempotent | src/context/AppContext.tsx:49 | deleting the same id twice is deleting it once |
| Arrays.FindAppend | src/pages/DownloadPage.tsx:16 | `find` on a concatenation searches the left part first and falls through to the right part only when the left has no match |
| Arrays.FindAfterFilter | src/context/AppContext.tsx:48-54 | removing only elements the search rejects does not change what `find` returns |
| AppContext.NewProduct | src/context/AppContext.tsx:40-44 | the new product keeps every supplied field (its supplied part is exactly the input) and carries the given id and createdAt |
| AppContext.NewTransaction | src/context/AppContext.tsx:57-63 | the new row keeps the caller's email, productId and reference, carries the given id and createdAt, is not verified and has the empty token |
| AppContext.LastVerified | src/context/AppContext.tsx:68-78 | the value `verifyTransaction` returns: None exactly when no row has the reference; otherwise the verified ledger's row at the last position carrying the reference |
| AppContext.MapVerify | src/context/AppContext.tsx:69-76 | the `map` loop builds exactly the verified ledger and leaves in `updated` exactly the last rewritten row |
| AppContext.VerifiedLedgerShape | src/context/AppContext.tsx:70-76 | verification keeps length and order, verifies and re-tokens each row with the reference, and leaves every other row unchanged |
| AppContext.VerifyUnknownReference | src/context/AppContext.tsx:69-77 | with no matching reference, the ledger is unchanged and nothing is returned |
| AppContext.ReverifyReplacesTokens | src/context/AppContext.tsx:72 | verifying a reference again gives the rows the new tokens; the first tokens are not kept |
| AppContext.VerifiedLedgerSnoc | src/context/AppContext.tsx:64-76 | verifying after a row is appended verifies the old rows as before and the new row on its own |
| AppContext.DuplicateReferenceVerifiesBoth | src/context/AppContext.tsx:56-77 | two rows with one reference are both verified, each with its own token, and the later one is returned |
| AppContext.PendingHaveNoTokenKept | src/context/AppContext.tsx:61-72 | appending a new row and verifying both keep the invariant that unverified rows have the empty token |
| AppContext.Store.constructor | src/context/AppContext.tsx:36-37 | the provider starts with the given catalog and an empty ledger |
| AppContext.Store.AddProduct | src/context/AppContext.tsx:39-46 | the new product is placed in front and the previous products follow in their order; the ledger is unchanged |
| AppContext.Store.DeleteProduct | src/context/AppContext.tsx:48-50 | the catalog becomes the products whose id differs, in order; the ledger is unchanged |
| AppContext.Store.GetProductById | src/context/AppContext.tsx:52-54 | None exactly when no product has the id; otherwise the first product with the id |
| AppContext.Store.CreateTransaction | src/context/AppContext.tsx:56-66 | one new unverified row with the empty token is appended at the end and returned, whatever references the ledger already holds; the catalog is unchanged |
| AppContext.Store.VerifyTransaction | src/context/AppContext.tsx:68-78 | the ledger becomes the verified ledger for the reference and the method returns the last updated row; the catalog is unchanged |
| DownloadPage.CheckToken | src/pages/DownloadPage.tsx:16-27 | a token is valid exactly when the first verified row carrying it links to a product `getProductById` finds, and then the offered file is that product's `fileUrl` |
| DownloadPage.CheckTokenUniqueToken | src/pages/DownloadPage.tsx:16-24 | when at most one verified row has the token, the token is valid exactly when some verified row with it links to an existing product |
| DownloadPage.PendingNeverAuthorises | src/pages/DownloadPage.tsx:16 | an unverified row never authorises: appending one changes no check outcome |
| DownloadPage.DeletedProductRevokes | src/pages/DownloadPage.tsx:18-23 | deleting the product of the deciding row makes the token invalid |
| DownloadPage.DeletingOtherProductKeeps | src/pages/DownloadPage.tsx:18-21 | deleting any other product leaves the check outcome unchanged |
| DownloadPage.ShowDownload | src/pages/DownloadPage.tsx:30-48 | loading exactly while `isValid` is null; the download button exactly when it is true, pointing at `fileUrl` |
| DownloadPage.DownloadView.constructor | src/pages/DownloadPage.tsx:11-12 | `isValid` starts as null and `fileUrl` as the empty string |
| DownloadPage.DownloadView.Validate | src/pages/DownloadPage.tsx:14-28 | `isValid` becomes true or false according to `CheckToken`; `fileUrl` is set only when valid; a missing token is invalid; the store is not modified |
| SuccessPage.ShowSuccess | src/pages/SuccessPage.tsx:31-53 | the spinner exactly while loading; the success view exactly when loading is done and the returned row exists and is verified, linking to `/download/` plus its token; otherwise the failure view |
| SuccessPage.AfterVerification | src/pages/SuccessPage.tsx:19-46 | after verification the page shows success exactly when some row had the reference, linking to the token minted for the last such row |
| SuccessPage.SuccessView.constructor | src/pages/SuccessPage.tsx:12-13 | the page starts loading with no transaction |
| SuccessPage.SuccessView.Land | src/pages/SuccessPage.tsx:15-24 | with a truthy reference, verifies exactly that reference, stores the returned row and stops loading; otherwise nothing changes |
| PurchaseFlow.TokenOfPath | src/App.tsx:19 | a token taken from a `/download/<token>` path is a non-empty segment and rebuilds the path |
| PurchaseFlow.LinkRoundTrip | src/pages/SuccessPage.tsx:46 | the success page's link routes back to the same token |
| PurchaseFlow.PurchaseThenCheck | src/context/AppContext.tsx:56-78 | create then verify returns the new row verified with the fresh token, and that token is valid exactly when the product exists, offering its file |
| PurchaseFlow.PurchaseDeleteThenCheck | src/pages/DownloadPage.tsx:18-23 | create, verify and then delete the product: the fresh token is invalid |
| PurchaseFlow.BuyAndDownload | src/pages/ProductDetailPage.tsx:30-39 | the checkout callback records the purchase; the success page shows the link with the minted token; the download page offers the product's file, or rejects the link when the product was deleted first |

## Left out

- Rendering, styling, icons and routing, apart from the `download/:token` path segment (`TokenOfPath`).
- The Paystack checkout in `src/pages/ProductDetailPage.tsx`. It is a foreign library, its amount is a floating-point `price * 100`, and its reference is a wall-clock timestamp. `BuyAndDownload` takes the reference as a parameter.
- `src/pages/Admin/UploadPage.tsx` (form handling and `parseFloat`), `src/pages/Admin/DashboardPage.tsx` and `src/components/ProtectedRoute.tsx`. They rely on auth state that the shown provider does not offer.
- The mock catalog (`createMockProducts`) and faker randomness. The initial catalog, ids, timestamps and tokens are parameters. Uniqueness is assumed only where a lemma states it (`FreshToken`, `CheckTokenUniqueToken`).
- React scheduling: the 1500 ms `setTimeout`, state batching and effect re-runs. `verifyTransaction` is modelled with its `setTransactions` updater running at once, so it returns the row that updater wrote.
- Product prices are `real`; no floating-point rounding is modelled.
- Signed URLs, expiry, object storage, durability and concurrent verification. None of them exists in the modelled code.
