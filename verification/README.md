# Property resource of a house-renting marketplace, in Dafny

This project models the backend property controller of a house-renting
marketplace. Sellers list properties. Buyers list them, search them, and like
or unlike them. A seller also views the properties they listed. Each request
handler is a pure function over a document store. The store is abstracted as
a map from opaque property ids to property records. Mutating handlers return
the reply together with the new store. Read-only handlers return only the
reply, because they cannot change the store.

Modules:

- `PropertyModel` (`property.dfy`) is the data model. It defines the address,
  the seller-supplied `Fields` and the stored `Property` (fields plus `likes`),
  the `Store`, and the reply type `Response` (`Ok`, `NotFound` with the
  message "Property not found", `StoreError`).
- `Seqs` (`seqs.dfy`) holds an order-preserving `Filter` with the same
  meaning as JavaScript's `Array.prototype.filter`. It also holds the
  "no duplicates" invariant on `likes`.
- `Likes` (`likes.dfy`) is the like/unlike toggle on a `likes` sequence.
- `Search` (`search.dfy`) is the search query builder. Each JavaScript-truthy
  criterion adds one key to the query. The store returns every record that
  satisfies all keys. A separate reference predicate `Meets` states a search
  criterion by criterion, and the model is proved equal to it.
- `PropertyController` (`controller.dfy`) holds seven of the eight handlers:
  `addProperty`, `getProperty`, `getAllProperty`, `likeUnlikeProperty`,
  `userProperty`, `deleteProperty` and `updateProperty`. The update handler
  comes in two versions, as written and as intended. The eighth handler,
  `searchProperty`, is `SearchProperty` in the `Search` module.
- `PropertyLaws` (`laws.dfy`) relates the handlers to one another: round
  trips, the like invariant, and the search and by-seller views.
- `Scenarios` (`scenarios.dfy`) holds worked requests: a listing in Goa
  found and missed by searches, and one user liking and then unliking it.

Parameters stand in for what the handlers take from outside:

- The caller's id is an explicit argument. The handlers read it from the
  authenticated session.
- The id of a new record is an argument, because the store driver generates
  it.
- The default `likes` of a new record is an argument, because it comes from
  the record schema. The schema file is not part of this model.

Ids are compared by value. That is what the handlers' `valueOf()`
comparisons between stored ids and the caller's id amount to.

## Model

| member | source | states |
|---|---|---|
| `Seqs.Filter` | backend/controllers/propertyController.js:64-68 | The filter keeps exactly the elements the predicate accepts, each with its original number of occurrences. Every kept element satisfies the predicate. |
| `Seqs.FilterAppend` | backend/controllers/propertyController.js:66-68 | Filtering distributes over concatenation, so the filter preserves the order of the entries it keeps. |
| `Likes.ToggleLike` | backend/controllers/propertyController.js:64-75 | If the user is already in `likes`, every occurrence of the user is removed, every other id keeps its count, and the message is "Successfully Unliked". Otherwise the user is appended at the end, earlier entries keep their order, and the message is "Successfully liked". |
| `Likes.ToggleFlipsMembership` | backend/controllers/propertyController.js:64-75 | After a toggle the user is in `likes` exactly when they were not in it before. |
| `Likes.ToggleLeavesOthers` | backend/controllers/propertyController.js:66-73 | A toggle by one user leaves the number of occurrences of every other user unchanged. |
| `Likes.ToggleKeepsNoDuplicates` | backend/controllers/propertyController.js:64-75 | If `likes` has no duplicate ids before a toggle, it has none after. |
| `Likes.ToggleTwiceRestoresMembership` | backend/controllers/propertyController.js:64-75 | Two consecutive toggles by the same user restore the set of users who like the property. |
| `Likes.ToggleTwiceRestoresLikes` | backend/controllers/propertyController.js:64-75 | If `likes` has no duplicates, two toggles restore it up to order. A like followed by an unlike restores it exactly. |
| `Likes.UnlikeKeepsOrder` | backend/controllers/propertyController.js:66-68 | Unliking keeps the remaining entries in their original order for every `likes`, whatever the number of the caller's occurrences: the entries on each side of one occurrence are filtered in place and then joined. |
| `Likes.UnlikeCutsSingleEntry` | backend/controllers/propertyController.js:66-68 | When the caller occurs once, unliking leaves exactly the entries around that occurrence, in their original order. |
| `Likes.UnlikeAfterLike` | backend/controllers/propertyController.js:66-73 | Filtering out a user who was just appended returns the `likes` from before the append. |
| `Search.BuildQuery` | backend/controllers/propertyController.js:86-100 | Each criterion adds its key to the query only when it is JavaScript-truthy. The store accepts a record for the built query exactly when the record meets every truthy criterion. |
| `Search.Find` | backend/controllers/propertyController.js:104 | The store returns exactly the records that match every key of the query (`Matches`: equality on the state, exact room counts, the price at most the ceiling, and all listed amenities present, where an empty amenity list matches nothing). Each record keeps its own id and is unchanged. |
| `Search.QueryMeansCriteria` | backend/controllers/propertyController.js:86-100 | The built query accepts a record exactly when the record meets every truthy criterion: the state equals the location, the bedroom and bathroom counts match exactly, the price is at most the ceiling, and the record has every listed amenity. |
| `Search.SearchProperty` | backend/controllers/propertyController.js:84-104 | A search returns exactly the stored records that meet the conjunction of the truthy criteria, and nothing outside the store. |
| `Search.SearchWithoutCriteria` | backend/controllers/propertyController.js:86-104 | If every criterion is absent, `""`, `0` or an empty amenity list, the search returns the whole store. |
| `Search.SearchMonotone` | backend/controllers/propertyController.js:88-100 | Adding a criterion, lowering the price ceiling or asking for more amenities never enlarges the result. |
| `PropertyController.AddProperty` | backend/controllers/propertyController.js:2-22 | A new record holds exactly the supplied fields and the schema's default likes. It is stored under the fresh id and every other record is kept. If the id is already taken, the write fails and the store is unchanged. |
| `PropertyController.GetAllProperty` | backend/controllers/propertyController.js:44-53 | Querying the store with an empty query returns every stored record under its id, that is, the whole store. |
| `PropertyController.GetProperty` | backend/controllers/propertyController.js:29-37 | A read succeeds exactly when the id is stored, and it returns that record. Otherwise it answers "Property not found". |
| `PropertyController.LikeUnlikeProperty` | backend/controllers/propertyController.js:55-75 | For an unknown id the reply is "Property not found" and the store is unchanged. Otherwise the reply is the toggle of the record's likes and the saved likes equal the replied ones. The record's fields are kept, every other user's entries keep their count, and no other record changes. |
| `PropertyController.UserProperty` | backend/controllers/propertyController.js:112-116 | The result holds exactly the stored records whose seller is the caller. |
| `PropertyController.DeleteProperty` | backend/controllers/propertyController.js:123-132 | For an unknown id the reply is "Property not found" and the store is unchanged. Otherwise the reply is "Deleted successfully" and exactly that id is removed. |
| `PropertyController.UpdatePropertyAsWritten` | backend/controllers/propertyController.js:139-148 | For an unknown id the reply is "Property not found". Otherwise the reply is "Updated successfully". In both cases the store is left unchanged. |
| `PropertyController.UpdateProperty` | backend/controllers/propertyController.js:139-148 | The corrected handler (see Findings). For an unknown id it answers "Property not found". Otherwise it overwrites the supplied fields of that record and keeps its other fields, its likes and every other record. |
| `PropertyLaws.AddThenGet` | backend/controllers/propertyController.js:17-37 | Reading the id of a just-added record returns exactly that record. |
| `PropertyLaws.DeleteThenNotFound` | backend/controllers/propertyController.js:123-132 | After a delete, a read, a second delete, a like toggle or an update on that id all answer "Property not found" and change nothing. |
| `PropertyLaws.DeleteUndoesAdd` | backend/controllers/propertyController.js:17-22 | Deleting a just-added record restores the store. |
| `PropertyLaws.LikeThenGet` | backend/controllers/propertyController.js:69-75 | Reading a record after a toggle shows the likes that the toggle replied with. |
| `PropertyLaws.LikeUnlikeKeepsLikesWellFormed` | backend/controllers/propertyController.js:64-75 | If no stored property lists a user twice before a toggle, none does after. |
| `PropertyLaws.OtherMutationsKeepLikesWellFormed` | backend/controllers/propertyController.js:123-148 | Delete and update keep the no-duplicate-likes invariant. Add keeps it when the default likes have no duplicates. |
| `PropertyLaws.LikeUnlikeTwice` | backend/controllers/propertyController.js:55-75 | Two toggles by the same user on one record restore its set of likers and keep its fields and every other record. On a store without duplicate likes they also restore its likes up to order. |
| `PropertyLaws.SearchWithinGetAll` | backend/controllers/propertyController.js:104 | Every search result is a record of the unfiltered listing, under the same id. |
| `PropertyLaws.SearchWithoutCriteriaIsGetAll` | backend/controllers/propertyController.js:46 | A search with no truthy criterion equals the unfiltered listing. |
| `PropertyLaws.SearchSeesAdded` | backend/controllers/propertyController.js:86-104 | A just-added record appears in a search exactly when it meets the criteria. |
| `PropertyLaws.UserPropertyAfterAdd` | backend/controllers/propertyController.js:115 | Adding a record extends the listing of its own seller by exactly that record and leaves every other seller's listing unchanged. |
| `PropertyLaws.UserPropertyDisjoint` | backend/controllers/propertyController.js:115 | Two different sellers' listings share no record. |
| `PropertyLaws.ApplyEmptyPatch` | backend/controllers/propertyController.js:147 | Under the corrected update, a body that supplies no field leaves the record's fields unchanged. |
| `PropertyLaws.ApplyPatchIdempotent` | backend/controllers/propertyController.js:147 | Under the corrected update, applying the same body twice has the same effect as applying it once. |
| `PropertyLaws.ApplyPatchFields` | backend/controllers/propertyController.js:147 | Under the corrected update, a field the body supplies takes the supplied value, and a field it leaves out keeps its value. |
| `PropertyLaws.UpdateAsWrittenAgreesOnlyOnNoOps` | backend/controllers/propertyController.js:147-148 | The update as written agrees with the intended update exactly when the body would not change the record. |
| `PropertyLaws.UpdateAsWrittenDropsTitle` | backend/controllers/propertyController.js:147-148 | For a concrete request the handler as written answers "Updated successfully" and keeps the old title, while the intended update sets the new one. |
| `Scenarios.SearchGoaListing` | backend/controllers/propertyController.js:88-104 | A listing in Goa with 3 bedrooms, price 500000 and the amenity "Schools" is found by Goa with 3 bedrooms. It is found when location is `""` and bedrooms is `0`. It is missed by Mumbai, by a ceiling of 400000 and by the amenity "Hospitals". |
| `Scenarios.LikeThenUnlike` | backend/controllers/propertyController.js:64-75 | Starting from empty likes, the first toggle by "u1" answers "Successfully liked" with `["u1"]`. The second answers "Successfully Unliked" with `[]` and restores the store. |

## Left out

- The frontend views (home page, banner, login, seller page, navigation bar, property description) are left out. They render server replies, issue `fetch` calls and keep local view state, and add no logic beyond the server's reply.
- The wishlist toggle is left out. Its server handler lives in a user controller that is not part of this model.
- The store driver is abstracted as a map. Its lookup, query, save and delete calls become map operations. Result order is not modelled: a listing or search result is a map from id to record.
- HTTP is left out: status codes, JSON shaping and console logging. Store failures other than a taken id on insert are also left out: connection loss, and the 500 replies the handlers send for any thrown exception.
- `Search.SearchProperty`: numeric criteria are already-parsed integers. `parseInt` and its `NaN` results are not modelled. Nor is the fact that a form value such as the string "0" is JavaScript-truthy: in this model an integer 0 imposes no filter.
- An id that is not a well-formed store id is not modelled. The store's lookup then throws a cast error, and the get, like, delete and update handlers answer 500 rather than "Property not found". In this model every id is well formed, so an unknown id always gets "Property not found".
- Authentication is a parameter: the caller id is passed in rather than read from the session.
- The read-then-write race between concurrent like toggles is left out. Every handler is one atomic step.
- Price and area are integers. Fractional values are not modelled.
- The record schema is not modelled: defaults, required fields and validation. The default `likes` of a new record is a parameter of `AddProperty`.
- `PropertyController.UpdateProperty`: the corrected handler overwrites only the ten seller-supplied fields. A body that carries `likes` is not modelled.
- Resolving a property's seller record for display is left out. It is done outside the property controller.

## Findings

| source | as written | input that shows it | evidently intended | confidence | as-written member | corrected member |
|---|---|---|---|---|---|---|
| backend/controllers/propertyController.js:147-148 | The update call receives only the id and no update document. The handler answers "Updated successfully" while the stored record stays unchanged. | A stored record titled "Old" and a request body with title "New": the reply is "Updated successfully" and the title is still "Old". | Overwrite the fields supplied in the request body and keep the rest. | medium, not executed | `PropertyLaws.UpdateAsWrittenDropsTitle` | `PropertyController.UpdateProperty` |
