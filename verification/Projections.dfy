/** Resources shared into chat messages, and what a reader of the message gets to see of them. */
module Projections {
  import opened Common

  type MessageId = UUID

  datatype ResourceType = Profile | Content | ForSale | Auction

  /** The occurrence attached to a message: at most one source is set, which the database enforces and the
      code does not rely on. */
  datatype Occurrence = Occurrence(profile: Option<UUID>, content: Option<UUID>, forSale: Option<UUID>,
                                   auction: Option<UUID>)

  /** The type follows from the first source that is set; None is the invalid empty type. */
  function TypeOf(o: Occurrence): Option<ResourceType> {
    if o.profile.Some? then Some(Profile)
    else if o.content.Some? then Some(Content)
    else if o.forSale.Some? then Some(ForSale)
    else if o.auction.Some? then Some(Auction)
    else None
  }

  function SourceId(o: Occurrence): UUID {
    if o.profile.Some? then o.profile.value
    else if o.content.Some? then o.content.value
    else if o.forSale.Some? then o.forSale.value
    else if o.auction.Some? then o.auction.value
    else NIL_UUID
  }

  /** The first source that is set, in the order profile, content, sale, auction, decides type and id. */
  lemma IdentityOf(o: Occurrence)
    ensures TypeOf(o) == None <==> o == Occurrence(None, None, None, None)
    ensures forall id :: (TypeOf(o) == Some(Profile) && SourceId(o) == id) <==> o.profile == Some(id)
    ensures forall id :: (TypeOf(o) == Some(Content) && SourceId(o) == id) <==>
      o.profile == None && o.content == Some(id)
    ensures forall id :: (TypeOf(o) == Some(ForSale) && SourceId(o) == id) <==>
      o.profile == None && o.content == None && o.forSale == Some(id)
    ensures forall id :: (TypeOf(o) == Some(Auction) && SourceId(o) == id) <==>
      o.profile == None && o.content == None && o.forSale == None && o.auction == Some(id)
  {
  }

  /** An occurrence that sets one source has that type and that id. */
  lemma SingleSource(id: UUID)
    ensures var o := Occurrence(Some(id), None, None, None); TypeOf(o) == Some(Profile) && SourceId(o) == id
    ensures var o := Occurrence(None, Some(id), None, None); TypeOf(o) == Some(Content) && SourceId(o) == id
    ensures var o := Occurrence(None, None, Some(id), None); TypeOf(o) == Some(ForSale) && SourceId(o) == id
    ensures var o := Occurrence(None, None, None, Some(id)); TypeOf(o) == Some(Auction) && SourceId(o) == id
  {
  }

  /** The hint that a shared content itself points at another resource. */
  datatype Indicator = Indicator(kind: ResourceType, id: UUID)

  datatype Payload = Payload(author: UUID, caption: Option<string>, nested: Option<Indicator>)

  /** A tombstone keeps the identity of the resource and nothing else. */
  datatype Projection = Projection(kind: Option<ResourceType>, id: UUID, live: Option<Payload>)
}
