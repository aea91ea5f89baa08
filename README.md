# Link redirector and click recorder: a Dafny model

This project models the part of the Editorial + Shopping API (`main.py`) that has real logic:

- **The redirect handler `GET /r/{slug}`.** It finds the Link for a slug and records a Click. It adds the missing UTM attribution parameters to the Link's target URL and answers with a 307 redirect.
- **`create_link`.** It inserts a Link only when no Link has the same slug yet.
- **`_safe_id`.** It turns a document's `_id` into a string.
- **Error-to-status mapping.** The lookup, create and delete handlers wrap their bodies in `try`/`except`. The model shows which status each exception ends up as.
- **`list_products` filter.** The filter it builds for the document store.

Modules, leaf to root:

- `Common` (common.dfy): `Option`, Python truthiness of an optional string, and `str()` of integers.
- `Dict` (dict.dfy): a Python `dict` with string keys, as its entries in insertion order. It has lookup (`Get`, `Contains`) and assignment (`Put`). Assignment overwrites a present key in place and appends a new one.
- `Documents` (documents.dfy): documents as dicts of field values, and `SafeId`.
- `Handlers` (handlers.dfy): the two `try`/`except` shapes (`CatchAll`, `ReraiseHttp`) and the lookup and delete handlers built on them.
- `Links` (links.dfy): the Link and Click records and the parsed target URL. It holds the in-place loop that adds UTM parameters (`MergeUtm`), the first-value comprehension (`FirstValues`) and the rebuilt URL (`RedirectUrl`).
- `LinkStore` (link_store.dfy): the class `Store`. It holds the `link` and `click` collections as sequences, with the state-changing methods `CreateLink` and `RedirectLink`.
- `ProductFilter` (product_filter.dfy): the filter built by `list_products`.

What the model takes as parameters, because it is outside the code modelled:

- **Request headers and client.** The `Referer` and `User-Agent` headers and the client host are optional strings. `None` for the host means the request has no client.
- **Store failures.** Whether a call to the store raises is a parameter. For the store methods it is the message of the exception. For the lookup handlers it is a `StoreResult`.
- **URL parsing.** Splitting a target into its components and parsing its query is the parameter `parse`. It gives `None` when the URL library rejects the target. The parsed query has the type `Query`: a dict whose keys are distinct and whose every key has at least one value, which is what the query parser returns.
- **URL assembly.** The rebuilt URL is the six-component record handed to the URL library to be joined, with the query as a dict of single values. Form-encoding it into text is done by that library.

Three points of the code that the model follows as written:

- **Lookup errors.** `get_product`, `get_article` and `get_link` raise a 404 for a missing document (main.py:158, :190, :235). The raise is inside a `try` whose `except Exception` (main.py:160, :192, :237) turns it into a 500. `create_link` and `delete_wishlist_item` instead re-raise `HTTPException` before their catch-all (main.py:225-226, :275-276), so their 400 and 404 survive. See Findings.
- **Click timing.** `redirect_link` writes the Click (main.py:327) before it checks the target (main.py:331-333), in the same request. So a Link with an empty target still records a Click. The write blocks the request, and its failure is swallowed (main.py:328-329).
- **Link lookup order.** The redirect asks the store for at most one Link with the slug (main.py:314) and uses it. The model takes the first such Link in collection order. It does not say which order the store uses.

## Model

| member | source | states |
|---|---|---|
| Common.NatToString | main.py:117 | `str()` of a natural number is a non-empty string of decimal digits that spells that number, with no leading zero; it has one digit exactly when the number is below 10 |
| Dict.IndexOf | main.py:116 | the result is -1 exactly when no entry has the key; otherwise it is the first entry with the key |
| Dict.Get | main.py:116-117 | the lookup finds nothing exactly when no entry has key k; otherwise it finds the value of an entry with key k |
| Dict.Put | main.py:339-341 | after `d[k] = v`, looking up k gives v and every other key gives what it gave before; a new key is appended at the end; a present key keeps its place, so the keys stay the same; distinct keys stay distinct |
| Dict.GetAppend | main.py:339-342 | looking a key up in `d + e` finds it in `d` first, and otherwise in `e` |
| Documents.SafeId | main.py:112-118 | a falsy document (`None` or empty) is returned as it is; otherwise the keys are the same and in the same order; the value under `_id` becomes the string of the old value; every other key keeps its value; a document without `_id` comes back unchanged; distinct keys stay distinct |
| Documents.SafeIdIdempotent | main.py:112-118 | applying `_safe_id` twice gives the same document as applying it once |
| Handlers.CatchAll | main.py:157-161 | under `except Exception`, only a normal return succeeds; every exception, `HTTPException` included, becomes a 500 whose detail is `str(e)` |
| Handlers.ReraiseHttp | main.py:225-228 | when `except HTTPException: raise` comes first, an `HTTPException` keeps its status and detail, and any other exception becomes a 500 with its message |
| Handlers.GetProduct | main.py:151-161 | `get_product` succeeds exactly when `bson` is available, the id parses and `find_one` returns a truthy document; the body is that document after `_safe_id`; every failure is a 500 |
| Handlers.GetArticle | main.py:185-193 | `get_article` succeeds exactly when `find_one` returns a truthy document, and returns it after `_safe_id`; every failure is a 500 |
| Handlers.GetLink | main.py:230-238 | `get_link` succeeds exactly when `find_one` returns a truthy document, and returns it after `_safe_id`; every failure is a 500 |
| Handlers.MissingProductIs500 | main.py:157-161 | with `bson` available and a parsable id, a missing product ends as 500 "404: Product not found", the text of the 404 raised inside the `try` |
| Handlers.MissingArticleIs500 | main.py:189-193 | a missing article ends as 500 "404: Article not found" |
| Handlers.MissingLinkIs500 | main.py:234-238 | a missing link ends as 500 "404: Link not found" |
| Handlers.DeleteWishlistItem | main.py:266-278 | `delete_wishlist_item` succeeds with "deleted" exactly when `bson` is available, the id parses and `delete_one` deletes at least one document; a failure is a 500 or the 404 "Item not found" |
| Handlers.MissingWishlistItemIs404 | main.py:272-276 | when nothing is deleted, the answer is 404 "Item not found", because `HTTPException` is re-raised before the catch-all |
| Handlers.ReraiseKeepsStatus | main.py:225-226 | for an `HTTPException`, re-raising keeps its status, the catch-all turns it into 500, and the two handler shapes differ whenever the status is not 500 |
| Handlers.GetProductFixed | main.py:151-161 | corrected `get_product`: a missing product is 404 "Product not found"; a found one is returned as before; every other failure is a 500 |
| Handlers.GetArticleFixed | main.py:185-193 | corrected `get_article`: a missing article is 404 "Article not found"; a store error is a 500 with its message |
| Handlers.GetLinkFixed | main.py:230-238 | corrected `get_link`: a missing link is 404 "Link not found"; a store error is a 500 with its message |
| Handlers.FixedDiffersOnlyWhenMissing | main.py:151-193 | the corrected article and link lookups answer differently from the written ones exactly when the document is missing; the corrected product lookup differs exactly when the id parses and the product is missing, or when `bson` is unavailable (its "ObjectId not available" is then no longer wrapped a second time) |
| Links.InjectedEntries | main.py:339-341 | every entry the UTM loop adds has one of the loop's keys, that key was absent from the parsed query, the Link's value for it is truthy, and that value is its only value; no key is added twice |
| Links.InjectedWellFormed | main.py:339-342 | the query with the added entries still has distinct keys and at least one value per key, so each key is emitted once |
| Links.GetInjected | main.py:339-341 | among the added entries, an attribution key has the Link's value exactly when the query lacked it and the Link's value is truthy |
| Links.MergeStep | main.py:339-341 | each turn of the loop checks `key not in q` against the dict updated so far, and that agrees with the query as parsed |
| Links.MergeUtm | main.py:339-341 | the in-place loop leaves every parsed entry as it was, in its place, and appends exactly the entries the merge rule adds |
| Links.InjectedKeysInOrder | main.py:339-341 | the added keys come in the fixed order `utm_source`, `utm_medium`, `utm_campaign`, each present only when the merge rule adds it |
| Links.GetFirstValues | main.py:342 | after the comprehension, each key of the merged query maps to the first of its values, and it has no other keys |
| Links.RedirectUrl | main.py:336-343 | the rebuilt URL keeps the target's scheme, network location, path, params and fragment; its query keys are the original keys, in order, followed by the added keys; no key occurs twice |
| Links.ExistingKeyWins | main.py:339-342 | a key already in the target's query keeps its own first value; the Link's value for it is ignored |
| Links.MissingUtmKey | main.py:339-342 | an attribution key absent from the query appears exactly when the Link's value for it is truthy, and then it carries that value |
| Links.OtherKeyAbsent | main.py:339-342 | any other key absent from the query stays absent |
| LinkStore.SlugIndex | main.py:314-317 | the Link used is the first with the slug in collection order; the result is -1 exactly when no Link has the slug |
| LinkStore.AppendFreshSlug | main.py:219-223 | appending a Link whose slug is not taken keeps slugs unique |
| LinkStore.UniqueResolution | main.py:314-317 | when slugs are unique, the Link a slug resolves to is the only Link with it |
| LinkStore.Store.CreateLink | main.py:216-228 | a failing lookup or insert gives 500 with the store's message; a taken slug gives 400 "Slug already exists"; in all three cases the store is unchanged; otherwise exactly the new Link is appended; Clicks are untouched; unique slugs stay unique |
| LinkStore.Store.RedirectLink | main.py:312-345 | Links are untouched. An unknown slug gives 404 "Link not found" and writes no Click. Otherwise exactly one Click (slug, referer, user agent, client host) is appended, unless its write fails; the outcome is the same either way. A falsy target then gives 400 "Link target missing". A truthy one that the URL library cannot split gives the framework's 500 "Internal Server Error", after the Click is written. Any other truthy one gives a 307 to the merged URL |
| ProductFilter.FilterTextSearch | main.py:139-145 | for a truthy `q`, the filter's `$or` value lists title, summary, brand and tags, in that order, each with `q` as a case-insensitive pattern |
| ProductFilter.GetFilter | main.py:132-145 | `room`, `style` and `tags` have an exact-value criterion exactly when their parameter is truthy; `$or` is present exactly when `q` is truthy; no other key is present |
| ProductFilter.FilterKeysInOrder | main.py:132-145 | the filter's keys are the truthy parameters' keys, in the order room, style, tags, `$or` |
| ProductFilter.ListProductsFilter | main.py:132-145 | the successive assignments build the filter whose lookups and key order the two lemmas above state |

## Findings

| source | as written | input that shows it | evidently intended | confidence | as-written member | corrected member |
|---|---|---|---|---|---|---|
| main.py:151-161 | the 404 raised for a missing product is inside `try ... except Exception`, which re-raises it as a 500 | an existing ObjectId no product has gives 500 "404: Product not found" | 404 "Product not found", as `delete_wishlist_item` does by re-raising `HTTPException` first | high; not executed | Handlers.MissingProductIs500 | Handlers.GetProductFixed |
| main.py:185-193 | the same for a missing article | a slug no article has gives 500 "404: Article not found" | 404 "Article not found" | high; not executed | Handlers.MissingArticleIs500 | Handlers.GetArticleFixed |
| main.py:230-238 | the same for a missing link | a slug no link has gives 500 "404: Link not found" | 404 "Link not found" | high; not executed | Handlers.MissingLinkIs500 | Handlers.GetLinkFixed |

## Left out

- URL parsing and assembly. Splitting the target, parsing its query, form-encoding the new query and joining the URL belong to the URL library and are not modelled. Parsing is the parameter `parse`. The result is the component record passed to the joiner. The parser drops blank values by default, so `utm_source=` counts as absent; the model takes that as part of what `parse` returns.
- Values are always lists, so the comprehension's `isinstance(v, list)` test always takes the list branch. Only that branch is modelled.
- Persistence: `create_document`, `get_documents`, `find_one`, `delete_one` and `count_documents` are code the model cannot see. They become operations on the in-model sequences, or parameters giving their outcome. The model makes no claim about `limit` or the store's order. It does not model the timestamp the store may add to a Click.
- LinkStore.Store.CreateLink: the identifier it returns is the new Link's position in the collection, not the store's ObjectId string.
- LinkStore.Store.RedirectLink: a failure of the Link lookup is not modelled. That call is outside any `try`, so the framework would answer 500.
- LinkStore.Store.RedirectLink: which targets the URL library rejects is not modelled; `parse` returning `None` stands for any such rejection.
- LinkStore.Store.CreateLink: concurrency is not modelled. The slug lookup (main.py:220) and the insert (main.py:223) are separate store calls, with no lock and no unique index. So slugs stay unique only when requests are handled one at a time; two concurrent requests with the same slug can both insert.
- Documents.SafeId: documents are values here, so the copy and the input it leaves unchanged hold by construction rather than being stated. Handing the same falsy object back is not modelled as object identity.
- Documents.SafeId: `str()` is derived for `None`, booleans, integers, strings and ObjectIds. Other values (floats, lists, nested documents) carry their `str()` text with them.
- Handlers.CatchAll: the detail `str(e)` of an `HTTPException` is taken to be "status: detail", the framework's text for it.
- The other handlers are pass-through CRUD with no logic beyond their `try`/`except` shape: `create_product`, `create_article`, `create_collection`, `subscribe`, `add_wishlist`, `list_articles`, `list_collections`, `get_wishlist` and `search`.
- How the store matches the filter is not modelled: case-insensitive patterns, and equality against a list field such as `tags`.
- The `/test` diagnostics, `analytics_summary`, the `ObjectId` import fallback, CORS and routing are I/O and framework plumbing, and are not modelled.
- `schemas.py` is declarative validation done by a library that is not part of this model; `main.py` does not use it.
