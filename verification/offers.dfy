/** The Offers screen: at most three priced offers, each with a title, a
    two-part description packed into one field, and a price. New offers
    come from a draft form; existing ones are edited in place by an item
    form. */
module Offers {
  import opened Wrappers
  import opened Protocol
  import opened DescriptionCodec

  const Name: string := "offers"

  /** The client-side cap on the number of offers. */
  const Cap: nat := 3

  /** An offer as the API returns it. */
  datatype OfferRecord = OfferRecord(id: Id, title: string, description: Option<string>, price: string)

  /** A listed offer: the record with its description split in two. */
  datatype Offer = Offer(record: OfferRecord, description1: string, description2: string)

  /** `Number(price)`: the entered text sent through JavaScript's numeric
      conversion, whose result is not modelled. */
  datatype Numeric = NumberOf(text: string)

  /** The JSON body of an offer's POST or PATCH. */
  datatype Payload = Payload(title: string, description: string, price: Numeric)

  /** The four inputs of the add form, and of an item's edit form. */
  datatype Draft = Draft(title: string, description1: string, description2: string, price: string)

  const EmptyDraft: Draft := Draft("", "", "", "")

  datatype Screen = Screen(offers: seq<Offer>, draft: Draft)

  /** Every field of the draft is non-empty. */
  predicate Complete(d: Draft) {
    Filled(d.title) && Filled(d.description1) && Filled(d.description2) && Filled(d.price)
  }

  function PayloadOf(d: Draft): Payload {
    Payload(d.title, Combine(d.description1, d.description2), NumberOf(d.price))
  }

  /** The list as `fetchOffers` stores it: each record with its split description. */
  function Processed(records: seq<OfferRecord>): (offers: seq<Offer>)
    ensures |offers| == |records|
    ensures forall i :: 0 <= i < |offers| ==>
              && offers[i].record == records[i]
              && (offers[i].description1, offers[i].description2) == SplitDescription(records[i].description)
  {
    seq(|records|, i requires 0 <= i < |records| =>
      var parts := SplitDescription(records[i].description);
      Offer(records[i], parts.0, parts.1))
  }

  /** `fetchOffers`: a rejected load keeps the list and shows an error; a
      body replaces the list with its processed records. */
  function Load(s: Screen, reply: Listing<OfferRecord>): (r: (Screen, Notice))
    ensures r.0.draft == s.draft
    ensures reply.ListRejected? ==> r == (s, Error(LoadFailed))
    ensures reply.Listed? ==> r.1 == Quiet && r.0.offers == Processed(reply.data.GetOr([]))
  {
    match reply
    case ListRejected => (s, Error(LoadFailed))
    case Listed(data) => (s.(offers := Processed(data.GetOr([]))), Quiet)
  }

  /** `handleAdd`: the four fields are checked first, then the cap; only
      then is the offer POSTed with its combined description. Success
      empties the draft and refetches; a failed save keeps the draft. */
  function Add(s: Screen, reply: Reply): (r: Step<Screen, Payload>)
    ensures !Complete(s.draft) ==> r == Step(s, [], Error(MissingFields))
    ensures Complete(s.draft) && |s.offers| >= Cap ==> r == Step(s, [], Error(LimitReached))
    ensures r.requests != [] <==> Complete(s.draft) && |s.offers| < Cap
    ensures r.requests != [] ==>
              r.requests[0] == Post(Collection(Name),
                Payload(s.draft.title, s.draft.description1 + "|||" + s.draft.description2,
                        NumberOf(s.draft.price)))
    ensures r.requests != [] && Succeeded(reply) ==>
              && r.state == s.(draft := EmptyDraft)
              && |r.requests| == 2 && r.requests[1] == Get(Collection(Name))
              && r.notice == Success
    ensures !Succeeded(reply) ==> r.state == s
    ensures r.requests != [] && !Succeeded(reply) ==> |r.requests| == 1 && r.notice.Error?
  {
    if !Complete(s.draft) then Step(s, [], Error(MissingFields))
    else if |s.offers| >= Cap then Step(s, [], Error(LimitReached))
    else Save([], Post(Collection(Name), PayloadOf(s.draft)), reply,
              s, s.(draft := EmptyDraft), Collection(Name))
  }

  /** `handleEdit`: no field check and no cap; PATCH the offer with its
      combined description and refetch on success. The screen's own state
      is untouched either way. */
  function Edit(s: Screen, id: Id, updated: Draft, reply: Reply): (r: Step<Screen, Payload>)
    ensures r.state == s
    ensures |r.requests| >= 1
    ensures r.requests[0] == Patch(Item(Name, id),
              Payload(updated.title, updated.description1 + "|||" + updated.description2,
                      NumberOf(updated.price)))
    ensures Succeeded(reply) ==>
              r.requests == [r.requests[0], Get(Collection(Name))] && r.notice == Success
    ensures !Succeeded(reply) ==> |r.requests| == 1 && r.notice.Error?
  {
    Save([], Patch(Item(Name, id), PayloadOf(updated)), reply, s, s, Collection(Name))
  }

  /** The edit row of one listed offer. */
  datatype ItemState = ItemState(editMode: bool, form: Draft)

  /** An item form as first shown: the offer's fields, not in edit mode. */
  function ItemFor(o: Offer): (r: ItemState)
    ensures !r.editMode
    ensures PayloadOf(r.form) ==
              Payload(o.record.title, Combine(o.description1, o.description2), NumberOf(o.record.price))
  {
    ItemState(false, Draft(o.record.title, o.description1, o.description2, o.record.price))
  }

  /** `saveEdit`: an incomplete form is refused before any request;
      otherwise the edit is handed to `handleEdit` and edit mode is left at
      once, whatever the server then answers. */
  function SaveEdit(item: ItemState, s: Screen, id: Id, reply: Reply): (r: (ItemState, Step<Screen, Payload>))
    ensures !Complete(item.form) ==> r.0 == item && r.1 == Step(s, [], Error(MissingFields))
    ensures Complete(item.form) ==>
              && r.0 == ItemState(false, item.form)
              && r.1 == Edit(s, id, item.form, reply)
    ensures r.1.requests != [] <==> Complete(item.form)
  {
    if !Complete(item.form) then (item, Step(s, [], Error(MissingFields)))
    else (item.(editMode := false), Edit(s, id, item.form, reply))
  }

  /** `handleDelete`: nothing without confirmation; once confirmed the
      status is not checked, so any answer reports success and refetches. */
  function Delete(s: Screen, id: Id, confirmed: bool, reply: Reply): (r: Step<Screen, Payload>)
    ensures r.state == s
    ensures !confirmed ==> r.requests == [] && r.notice == Quiet
    ensures confirmed && reply.Answered? ==>
              r.requests == [Request.Delete(Item(Name, id)), Get(Collection(Name))] && r.notice == Success
    ensures confirmed && reply.Rejected? ==>
              r.requests == [Request.Delete(Item(Name, id))] && r.notice == Error(RequestFailed)
  {
    Remove(s, Name, id, Collection(Name), confirmed, reply)
  }

  /** An offer added with safe description parts is read back, after the
      refetch, with exactly those parts. */
  lemma AddReadsBack(s: Screen, reply: Reply, id: Id)
    requires Complete(s.draft) && |s.offers| < Cap
    requires FirstPartSafe(s.draft.description1) && !Contains(s.draft.description2)
    ensures var sent := Add(s, reply).requests[0].body;
      Processed([OfferRecord(id, sent.title, Some(sent.description), sent.price.text)])[0]
        == Offer(OfferRecord(id, s.draft.title, Some(sent.description), s.draft.price),
                 s.draft.description1, s.draft.description2)
  {
    RoundTrip(s.draft.description1, s.draft.description2);
  }

  /** Saving an offer's item form without touching it sends back the
      stored description exactly when that description holds exactly one
      separator; otherwise the save rewrites it. */
  lemma UntouchedResave(s: Screen, record: OfferRecord, reply: Reply)
    requires record.description.Some?
    requires Complete(ItemFor(Processed([record])[0]).form)
    ensures var item := ItemFor(Processed([record])[0]).(editMode := true);
      var sent := SaveEdit(item, s, record.id, reply).1.requests[0].body;
      var stored := record.description.value;
      sent.description == stored <==> |Split(stored)| == 2
  {
    ResplitUnchanged(record.description.value);
  }
}
