/**
 The search endpoint: optional criteria are turned into a store query, one
 key per criterion that is JavaScript-truthy, and the store returns every
 record that satisfies all keys of the query.
 */
module Search {
  import opened PropertyModel

  /** The request body of a search. Numbers arrive already parsed. */
  datatype Criteria = Criteria(
    location: Option<string>,
    bedrooms: Option<int>,
    bathrooms: Option<int>,
    price: Option<int>,
    amenities: Option<seq<string>>)

  /** The query object the controller builds: a key is either absent or holds
      the value to match. */
  datatype Query = Query(
    state: Option<string>,
    numberOfBedrooms: Option<int>,
    numberOfBathrooms: Option<int>,
    priceAtMost: Option<int>,
    allAmenities: Option<seq<string>>)

  /** JavaScript truthiness of a string field: present and not "". */
  predicate TruthyText(o: Option<string>)
  {
    o.Some? && o.value != ""
  }

  /** JavaScript truthiness of a number field: present and not 0. */
  predicate TruthyNumber(o: Option<int>)
  {
    o.Some? && o.value != 0
  }

  /** The amenities guard: present and of positive length. */
  predicate NonEmptyList(o: Option<seq<string>>)
  {
    o.Some? && |o.value| > 0
  }

  /** Every wanted tag is among the tags a record has. */
  predicate HasAll(have: seq<string>, want: seq<string>)
  {
    forall a :: a in want ==> a in have
  }

  /** The query builder: each criterion adds its key only when truthy, so the
      store accepts a record for the built query exactly when the record meets
      every truthy criterion. */
  function BuildQuery(c: Criteria): (q: Query)
    ensures forall p :: Matches(p, q) <==> Meets(p, c)
  {
    Query(
      if TruthyText(c.location) then c.location else None,
      if TruthyNumber(c.bedrooms) then c.bedrooms else None,
      if TruthyNumber(c.bathrooms) then c.bathrooms else None,
      if TruthyNumber(c.price) then c.price else None,
      if NonEmptyList(c.amenities) then c.amenities else None)
  }

  /** The store's reading of a query: every key present constrains the record
      (equality, at-most for the price, containment of all tags). An `$all`
      key holding no tag matches no record at all, so the builder must leave
      the key out for an empty amenity list. */
  predicate Matches(p: Property, q: Query)
  {
    && (q.state.Some? ==> p.fields.address.state == q.state.value)
    && (q.numberOfBedrooms.Some? ==> p.fields.numberOfBedrooms == q.numberOfBedrooms.value)
    && (q.numberOfBathrooms.Some? ==> p.fields.numberOfBathrooms == q.numberOfBathrooms.value)
    && (q.priceAtMost.Some? ==> p.fields.price <= q.priceAtMost.value)
    && (q.allAmenities.Some? ==>
          |q.allAmenities.value| > 0 && HasAll(p.fields.amenities, q.allAmenities.value))
  }

  /** The records the store returns for a query, under their ids. */
  function Find(store: Store, q: Query): (r: Store)
    ensures forall id :: id in r <==> id in store && Matches(store[id], q)
    ensures forall id :: id in r ==> r[id] == store[id]
  {
    map id | id in store && Matches(store[id], q) :: store[id]
  }

  /** Reference reading of a search, criterion by criterion: the conjunction of
      the predicates of the truthy criteria. */
  predicate Meets(p: Property, c: Criteria)
  {
    && (TruthyText(c.location) ==> p.fields.address.state == c.location.value)
    && (TruthyNumber(c.bedrooms) ==> p.fields.numberOfBedrooms == c.bedrooms.value)
    && (TruthyNumber(c.bathrooms) ==> p.fields.numberOfBathrooms == c.bathrooms.value)
    && (TruthyNumber(c.price) ==> p.fields.price <= c.price.value)
    && (NonEmptyList(c.amenities) ==> HasAll(p.fields.amenities, c.amenities.value))
  }

  /** The built query accepts a record exactly when the record meets the
      criteria, stated for one record. */
  lemma QueryMeansCriteria(p: Property, c: Criteria)
    ensures Matches(p, BuildQuery(c)) <==> Meets(p, c)
  {
  }

  /** The search endpoint: exactly the stored records that meet every truthy
      criterion, unchanged. */
  function SearchProperty(store: Store, c: Criteria): (r: Store)
    ensures forall id :: id in r <==> id in store && Meets(store[id], c)
    ensures forall id :: id in r ==> r[id] == store[id]
  {
    Find(store, BuildQuery(c))
  }

  /** No criterion filters: every field absent or falsy. */
  predicate NoCriteria(c: Criteria)
  {
    && !TruthyText(c.location)
    && !TruthyNumber(c.bedrooms)
    && !TruthyNumber(c.bathrooms)
    && !TruthyNumber(c.price)
    && !NonEmptyList(c.amenities)
  }

  /** With no truthy criterion the search returns the whole store. */
  lemma SearchWithoutCriteria(store: Store, c: Criteria)
    requires NoCriteria(c)
    ensures SearchProperty(store, c) == store
  {
  }

  /** `narrow` keeps every filter of `wide`, possibly tightened: same location
      and room counts, a ceiling no higher, and a superset of amenities; it may
      add filters `wide` lacks. */
  predicate Narrows(narrow: Criteria, wide: Criteria)
  {
    && (TruthyText(wide.location) ==> narrow.location == wide.location)
    && (TruthyNumber(wide.bedrooms) ==> narrow.bedrooms == wide.bedrooms)
    && (TruthyNumber(wide.bathrooms) ==> narrow.bathrooms == wide.bathrooms)
    && (TruthyNumber(wide.price) ==>
          TruthyNumber(narrow.price) && narrow.price.value <= wide.price.value)
    && (NonEmptyList(wide.amenities) ==>
          NonEmptyList(narrow.amenities) && HasAll(narrow.amenities.value, wide.amenities.value))
  }

  /** Adding or tightening a criterion never enlarges the result. */
  lemma SearchMonotone(store: Store, narrow: Criteria, wide: Criteria)
    requires Narrows(narrow, wide)
    ensures SearchProperty(store, narrow).Keys <= SearchProperty(store, wide).Keys
  {
  }
}
