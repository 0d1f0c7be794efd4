/**
 The property resource: the record a seller lists, the document store that
 holds records under opaque ids, and the replies of the controller.
 */
module PropertyModel {

  /** An optional value: a request field that may be absent. */
  datatype Option<+T> = None | Some(value: T)

  /** Opaque document ids. Ids are compared by value, which is what the
      controller's `valueOf()` comparisons amount to. */
  type PropertyId = string
  type UserId = string

  datatype Address = Address(
    street: string,
    city: string,
    state: string,
    postalCode: string,
    country: string)

  /** The fields a seller supplies when listing a property. */
  datatype Fields = Fields(
    sellerId: UserId,
    title: string,
    description: string,
    address: Address,
    price: int,
    numberOfBathrooms: int,
    numberOfBedrooms: int,
    area: int,
    amenities: seq<string>,
    images: seq<string>)

  /** A stored property: the seller's fields plus the ids of the users who like it. */
  datatype Property = Property(fields: Fields, likes: seq<UserId>)

  /** The document store, abstracted as a map from id to record. */
  type Store = map<PropertyId, Property>

  /** What a controller call answers. `NotFound` is the 404 reply; `StoreError`
      is the 500 reply of a failed store write. */
  datatype Response<T> = Ok(value: T) | NotFound(error: string) | StoreError

  const PropertyNotFound: string := "Property not found"
}
