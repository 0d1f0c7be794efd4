/**
 The property controller: each request handler as a pure function of the
 store, returning the reply and, for the mutating handlers, the new store.
 */
module PropertyController {
  import opened Seqs
  import opened PropertyModel
  import opened Likes
  import opened Search

  const DeletedMessage: string := "Deleted successfully"
  const UpdatedMessage: string := "Updated successfully"

  /** The store invariant the toggle is meant to keep: no user likes a
      property twice. */
  ghost predicate LikesWellFormed(store: Store)
  {
    forall id :: id in store ==> NoDuplicates(store[id].likes)
  }

  // ---------------------------------------------------------------------------
  // addProperty

  /** A new record carries exactly the supplied fields; its `likes` is the
      schema default. The id is the one the driver generated; a clash with a
      stored id is a failed write. */
  function AddProperty(store: Store, id: PropertyId, f: Fields, defaultLikes: seq<UserId>)
    : (r: (Response<(PropertyId, Property)>, Store))
    ensures id in store ==> r.0 == StoreError && r.1 == store
    ensures id !in store ==> r.0 == Ok((id, Property(f, defaultLikes)))
    ensures id !in store ==> r.1.Keys == store.Keys + {id} && r.1[id] == Property(f, defaultLikes)
    ensures forall k :: k in store ==> k in r.1 && r.1[k] == store[k]
  {
    if id in store then (StoreError, store)
    else
      var p := Property(f, defaultLikes);
      (Ok((id, p)), store[id := p])
  }

  // ---------------------------------------------------------------------------
  // getProperty, getAllProperty

  function GetProperty(store: Store, id: PropertyId): (r: Response<Property>)
    ensures r.Ok? <==> id in store
    ensures r.Ok? ==> r.value == store[id]
    ensures !r.Ok? ==> r == NotFound(PropertyNotFound)
  {
    if id !in store then NotFound(PropertyNotFound) else Ok(store[id])
  }

  /** Every record, unfiltered: the store queried with no key at all. */
  function GetAllProperty(store: Store): (r: Store)
    ensures r == store
  {
    var all := Find(store, Query(None, None, None, None, None));
    assert all.Keys == store.Keys;
    all
  }

  // ---------------------------------------------------------------------------
  // likeUnlikeProperty

  /** Toggles `user` in the likes of record `id` and saves the record; nothing
      else in the store changes. */
  function LikeUnlikeProperty(store: Store, id: PropertyId, user: UserId)
    : (r: (Response<LikeReply>, Store))
    ensures id !in store ==> r.0 == NotFound(PropertyNotFound) && r.1 == store
    ensures id in store ==> r.0.Ok? && r.1.Keys == store.Keys
    ensures id in store ==> r.1[id].fields == store[id].fields && r.1[id].likes == r.0.value.likes
    ensures id in store ==> r.0.value == ToggleLike(store[id].likes, user)
    ensures id in store ==>
      forall v :: v != user ==> multiset(r.1[id].likes)[v] == multiset(store[id].likes)[v]
    ensures id in store && user in store[id].likes ==>
      r.0.value.message == UnlikedMessage && user !in r.1[id].likes
    ensures id in store && user !in store[id].likes ==>
      r.0.value.message == LikedMessage && r.1[id].likes == store[id].likes + [user]
    ensures forall k :: k in store && k != id ==> k in r.1 && r.1[k] == store[k]
  {
    if id !in store then (NotFound(PropertyNotFound), store)
    else
      var t := ToggleLike(store[id].likes, user);
      (Ok(t), store[id := store[id].(likes := t.likes)])
  }

  // ---------------------------------------------------------------------------
  // userProperty

  /** The records whose seller is the caller. */
  function UserProperty(store: Store, user: UserId): (r: Store)
    ensures forall id :: id in r <==> id in store && store[id].fields.sellerId == user
    ensures forall id :: id in r ==> r[id] == store[id]
  {
    map id | id in store && store[id].fields.sellerId == user :: store[id]
  }

  // ---------------------------------------------------------------------------
  // deleteProperty

  function DeleteProperty(store: Store, id: PropertyId): (r: (Response<string>, Store))
    ensures id !in store ==> r.0 == NotFound(PropertyNotFound) && r.1 == store
    ensures id in store ==> r.0 == Ok(DeletedMessage)
    ensures r.1.Keys == store.Keys - {id}
    ensures forall k :: k in r.1 ==> r.1[k] == store[k]
  {
    if id !in store then (NotFound(PropertyNotFound), store)
    else (Ok(DeletedMessage), store - {id})
  }

  // ---------------------------------------------------------------------------
  // updateProperty

  /** The fields a request body may carry for an update; absent ones are kept. */
  datatype Patch = Patch(
    sellerId: Option<UserId>,
    title: Option<string>,
    description: Option<string>,
    address: Option<Address>,
    price: Option<int>,
    numberOfBathrooms: Option<int>,
    numberOfBedrooms: Option<int>,
    area: Option<int>,
    amenities: Option<seq<string>>,
    images: Option<seq<string>>)

  function Pick<T>(o: Option<T>, keep: T): T
  {
    if o.Some? then o.value else keep
  }

  /** Overwrites the supplied fields. */
  function ApplyPatch(f: Fields, patch: Patch): Fields
  {
    Fields(
      Pick(patch.sellerId, f.sellerId),
      Pick(patch.title, f.title),
      Pick(patch.description, f.description),
      Pick(patch.address, f.address),
      Pick(patch.price, f.price),
      Pick(patch.numberOfBathrooms, f.numberOfBathrooms),
      Pick(patch.numberOfBedrooms, f.numberOfBedrooms),
      Pick(patch.area, f.area),
      Pick(patch.amenities, f.amenities),
      Pick(patch.images, f.images))
  }

  /** The patch that supplies nothing. */
  const EmptyPatch: Patch := Patch(None, None, None, None, None, None, None, None, None, None)

  /** The handler as written: the update call is issued without an update
      document, so the body is ignored and the record is left as it was. */
  function UpdatePropertyAsWritten(store: Store, id: PropertyId, patch: Patch)
    : (r: (Response<string>, Store))
    ensures id !in store ==> r.0 == NotFound(PropertyNotFound)
    ensures id in store ==> r.0 == Ok(UpdatedMessage)
    ensures r.1 == store
  {
    if id !in store then (NotFound(PropertyNotFound), store)
    else (Ok(UpdatedMessage), store)
  }

  /** The handler as intended: the supplied fields of record `id` are
      overwritten, every other field, its likes and every other record kept. */
  function UpdateProperty(store: Store, id: PropertyId, patch: Patch)
    : (r: (Response<string>, Store))
    ensures id !in store ==> r.0 == NotFound(PropertyNotFound) && r.1 == store
    ensures id in store ==> r.0 == Ok(UpdatedMessage)
    ensures r.1.Keys == store.Keys
    ensures id in store ==> r.1[id].likes == store[id].likes
    ensures id in store ==> r.1[id].fields == ApplyPatch(store[id].fields, patch)
    ensures forall k :: k in store && k != id ==> r.1[k] == store[k]
  {
    if id !in store then (NotFound(PropertyNotFound), store)
    else
      var p := store[id];
      (Ok(UpdatedMessage), store[id := p.(fields := ApplyPatch(p.fields, patch))])
  }
}
