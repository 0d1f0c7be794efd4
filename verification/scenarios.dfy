/**
 Worked requests against a small store: a listing in Goa found and missed by
 searches, and one user liking and unliking it.
 */
module Scenarios {
  import opened PropertyModel
  import opened Likes
  import opened Search
  import opened PropertyController
  import opened PropertyLaws

  const GoaHouse: Fields := Fields(
    "sellerX", "Villa", "", Address("", "", "Goa", "", ""),
    500000, 2, 3, 1200, ["Schools"], [])

  /** Criteria with every field absent. */
  const Anything: Criteria := Criteria(None, None, None, None, None)

  /** The Goa listing is found by state and bedroom count, and missed by
      another state, a lower price ceiling and an amenity it lacks. */
  lemma {:induction false} SearchGoaListing(store: Store, id: PropertyId)
    requires id !in store
    ensures var s := AddProperty(store, id, GoaHouse, []).1;
      && id in SearchProperty(s, Anything.(location := Some("Goa"), bedrooms := Some(3)))
      && id !in SearchProperty(s, Anything.(location := Some("Mumbai")))
      && id !in SearchProperty(s, Anything.(price := Some(400000)))
      && id !in SearchProperty(s, Anything.(amenities := Some(["Hospitals"])))
      && id in SearchProperty(s, Anything.(location := Some(""), bedrooms := Some(0)))
  {
    var p := Property(GoaHouse, []);
    SearchSeesAdded(store, id, GoaHouse, [], Anything.(location := Some("Goa"), bedrooms := Some(3)));
    SearchSeesAdded(store, id, GoaHouse, [], Anything.(location := Some("Mumbai")));
    SearchSeesAdded(store, id, GoaHouse, [], Anything.(price := Some(400000)));
    SearchSeesAdded(store, id, GoaHouse, [], Anything.(amenities := Some(["Hospitals"])));
    assert "Hospitals" !in GoaHouse.amenities;
    SearchSeesAdded(store, id, GoaHouse, [], Anything.(location := Some(""), bedrooms := Some(0)));
  }

  /** A listing with no likes: the first toggle by "u1" likes it, the second
      unlikes it. */
  lemma {:induction false} LikeThenUnlike(store: Store, id: PropertyId)
    requires id !in store
    ensures var s0 := AddProperty(store, id, GoaHouse, []).1;
      var (r1, s1) := LikeUnlikeProperty(s0, id, "u1");
      var (r2, s2) := LikeUnlikeProperty(s1, id, "u1");
      && r1 == Ok(LikeReply(LikedMessage, ["u1"]))
      && r2.Ok? && r2.value.message == UnlikedMessage && r2.value.likes == []
      && s2 == s0
  {
    var s0 := AddProperty(store, id, GoaHouse, []).1;
    var s1 := LikeUnlikeProperty(s0, id, "u1").1;
    var s2 := LikeUnlikeProperty(s1, id, "u1").1;
    UnlikeAfterLike([], "u1");
    assert [] + ["u1"] == ["u1"];
    assert s1[id].likes == ["u1"];
    assert s2[id] == s0[id];
    assert s2.Keys == s0.Keys;
  }
}
