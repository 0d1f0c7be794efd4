/**
 Laws relating the handlers of the property controller to one another:
 round trips through the store, the like invariant, and the search
 and by-seller views.
 */
module PropertyLaws {
  import opened Seqs
  import opened PropertyModel
  import opened Likes
  import opened Search
  import opened PropertyController

  // ---------------------------------------------------------------------------
  // Create, read, delete

  /** A stored record is read back unchanged under its new id. */
  lemma AddThenGet(store: Store, id: PropertyId, f: Fields, defaultLikes: seq<UserId>)
    requires id !in store
    ensures GetProperty(AddProperty(store, id, f, defaultLikes).1, id) == Ok(Property(f, defaultLikes))
  {
  }

  /** After a delete the id is gone: reading it, deleting it again, toggling a
      like on it and updating it all answer "Property not found". */
  lemma DeleteThenNotFound(store: Store, id: PropertyId, user: UserId, patch: Patch)
    ensures var s := DeleteProperty(store, id).1;
      && GetProperty(s, id) == NotFound(PropertyNotFound)
      && DeleteProperty(s, id) == (NotFound(PropertyNotFound), s)
      && LikeUnlikeProperty(s, id, user) == (NotFound(PropertyNotFound), s)
      && UpdateProperty(s, id, patch) == (NotFound(PropertyNotFound), s)
  {
  }

  /** Adding a record and deleting it restores the store. */
  lemma {:induction false} DeleteUndoesAdd(store: Store, id: PropertyId, f: Fields, defaultLikes: seq<UserId>)
    requires id !in store
    ensures DeleteProperty(AddProperty(store, id, f, defaultLikes).1, id).1 == store
  {
    var s := DeleteProperty(AddProperty(store, id, f, defaultLikes).1, id).1;
    assert s.Keys == store.Keys;
  }

  // ---------------------------------------------------------------------------
  // Likes

  /** Reading a record after a toggle shows the likes the toggle replied with. */
  lemma LikeThenGet(store: Store, id: PropertyId, user: UserId)
    requires id in store
    ensures var (reply, s) := LikeUnlikeProperty(store, id, user);
      GetProperty(s, id) == Ok(Property(store[id].fields, reply.value.likes))
  {
  }

  /** The toggle keeps the store-wide invariant that no property is liked twice
      by the same user. */
  lemma {:induction false} LikeUnlikeKeepsLikesWellFormed(store: Store, id: PropertyId, user: UserId)
    requires LikesWellFormed(store)
    ensures LikesWellFormed(LikeUnlikeProperty(store, id, user).1)
  {
    if id in store {
      ToggleKeepsNoDuplicates(store[id].likes, user);
    }
  }

  /** Deleting and updating keep the invariant; adding keeps it when the
      schema's default likes are free of duplicates. */
  lemma OtherMutationsKeepLikesWellFormed(
    store: Store, id: PropertyId, f: Fields, defaultLikes: seq<UserId>, patch: Patch)
    requires LikesWellFormed(store)
    ensures NoDuplicates(defaultLikes) ==> LikesWellFormed(AddProperty(store, id, f, defaultLikes).1)
    ensures LikesWellFormed(DeleteProperty(store, id).1)
    ensures LikesWellFormed(UpdateProperty(store, id, patch).1)
  {
  }

  /** Two toggles by the same user on the same record restore the set of users
      who like it, keep its fields and touch no other record; on a well-formed
      store they restore `likes` up to order. */
  lemma {:induction false} LikeUnlikeTwice(store: Store, id: PropertyId, user: UserId)
    requires id in store
    ensures var s := LikeUnlikeProperty(LikeUnlikeProperty(store, id, user).1, id, user).1;
      && s.Keys == store.Keys
      && s[id].fields == store[id].fields
      && Members(s[id].likes) == Members(store[id].likes)
      && (LikesWellFormed(store) ==> multiset(s[id].likes) == multiset(store[id].likes))
      && (forall k :: k in store && k != id ==> s[k] == store[k])
  {
    var likes := store[id].likes;
    ToggleTwiceRestoresMembership(likes, user);
    if LikesWellFormed(store) {
      ToggleTwiceRestoresLikes(likes, user);
    }
  }

  // ---------------------------------------------------------------------------
  // Search and by-seller views

  /** A search never returns anything the unfiltered listing does not. */
  lemma SearchWithinGetAll(store: Store, c: Criteria)
    ensures var (found, all) := (SearchProperty(store, c), GetAllProperty(store));
      found.Keys <= all.Keys && forall id :: id in found ==> found[id] == all[id]
  {
  }

  /** With no truthy criterion a search is the unfiltered listing. */
  lemma SearchWithoutCriteriaIsGetAll(store: Store, c: Criteria)
    requires NoCriteria(c)
    ensures SearchProperty(store, c) == GetAllProperty(store)
  {
    SearchWithoutCriteria(store, c);
  }

  /** A freshly added record shows in a search exactly when it meets the criteria. */
  lemma SearchSeesAdded(store: Store, id: PropertyId, f: Fields, defaultLikes: seq<UserId>, c: Criteria)
    requires id !in store
    ensures id in SearchProperty(AddProperty(store, id, f, defaultLikes).1, c)
        <==> Meets(Property(f, defaultLikes), c)
  {
  }

  /** A seller's listing gains a new record exactly when that seller listed it;
      other sellers' additions leave it alone. */
  lemma {:induction false} UserPropertyAfterAdd(
    store: Store, id: PropertyId, f: Fields, defaultLikes: seq<UserId>, user: UserId)
    requires id !in store
    ensures var after := UserProperty(AddProperty(store, id, f, defaultLikes).1, user);
      after == if f.sellerId == user
               then UserProperty(store, user)[id := Property(f, defaultLikes)]
               else UserProperty(store, user)
  {
    var after := UserProperty(AddProperty(store, id, f, defaultLikes).1, user);
    var before := UserProperty(store, user);
    if f.sellerId == user {
      assert after.Keys == before.Keys + {id};
    } else {
      assert after.Keys == before.Keys;
    }
  }

  /** The by-seller views of two different sellers share no record. */
  lemma UserPropertyDisjoint(store: Store, a: UserId, b: UserId)
    requires a != b
    ensures UserProperty(store, a).Keys !! UserProperty(store, b).Keys
  {
  }

  // ---------------------------------------------------------------------------
  // Update

  /** The empty patch leaves a record's fields as they were. */
  lemma ApplyEmptyPatch(f: Fields)
    ensures ApplyPatch(f, EmptyPatch) == f
  {
  }

  /** Applying the same patch twice is applying it once. */
  lemma ApplyPatchIdempotent(f: Fields, patch: Patch)
    ensures ApplyPatch(ApplyPatch(f, patch), patch) == ApplyPatch(f, patch)
  {
  }

  /** A patch that names a field sets it; a field it leaves out is kept. */
  lemma ApplyPatchFields(f: Fields, patch: Patch)
    ensures var g := ApplyPatch(f, patch);
      && (patch.title.Some? ==> g.title == patch.title.value)
      && (patch.title.None? ==> g.title == f.title)
      && (patch.price.Some? ==> g.price == patch.price.value)
      && (patch.price.None? ==> g.price == f.price)
      && (patch.address.Some? ==> g.address == patch.address.value)
      && (patch.address.None? ==> g.address == f.address)
      && (patch.amenities.Some? ==> g.amenities == patch.amenities.value)
      && (patch.amenities.None? ==> g.amenities == f.amenities)
      && (patch.sellerId.Some? ==> g.sellerId == patch.sellerId.value)
      && (patch.sellerId.None? ==> g.sellerId == f.sellerId)
      && (patch.description.Some? ==> g.description == patch.description.value)
      && (patch.description.None? ==> g.description == f.description)
      && (patch.numberOfBathrooms.Some? ==> g.numberOfBathrooms == patch.numberOfBathrooms.value)
      && (patch.numberOfBathrooms.None? ==> g.numberOfBathrooms == f.numberOfBathrooms)
      && (patch.numberOfBedrooms.Some? ==> g.numberOfBedrooms == patch.numberOfBedrooms.value)
      && (patch.numberOfBedrooms.None? ==> g.numberOfBedrooms == f.numberOfBedrooms)
      && (patch.area.Some? ==> g.area == patch.area.value)
      && (patch.area.None? ==> g.area == f.area)
      && (patch.images.Some? ==> g.images == patch.images.value)
      && (patch.images.None? ==> g.images == f.images)
  {
  }

  /** The handler as written agrees with the intended one only on patches
      that would not change the record. */
  lemma UpdateAsWrittenAgreesOnlyOnNoOps(store: Store, id: PropertyId, patch: Patch)
    requires id in store
    ensures UpdatePropertyAsWritten(store, id, patch) == UpdateProperty(store, id, patch)
        <==> ApplyPatch(store[id].fields, patch) == store[id].fields
  {
    var s := UpdateProperty(store, id, patch).1;
    if ApplyPatch(store[id].fields, patch) == store[id].fields {
      assert s == store;
    } else {
      assert s[id] != store[id];
    }
  }

  /** A concrete request that shows the defect: the handler answers "Updated
      successfully" yet the title stays what it was. */
  lemma UpdateAsWrittenDropsTitle()
    ensures var f := Fields("s1", "Old", "", Address("", "", "Goa", "", ""), 1, 1, 1, 1, [], []);
      var store := map["p1" := Property(f, [])];
      var patch := EmptyPatch.(title := Some("New"));
      && UpdatePropertyAsWritten(store, "p1", patch).0 == Ok(UpdatedMessage)
      && UpdatePropertyAsWritten(store, "p1", patch).1["p1"].fields.title == "Old"
      && UpdateProperty(store, "p1", patch).1["p1"].fields.title == "New"
  {
  }
}
