/** Cases from the table tests of package `nested`, on a part of their fixture document. */
module NestedExamples {
  import opened Wrappers
  import opened GoStrings
  import opened Nested
  import opened NestedProperties

  /** {"name": "daniel3", "phones": [...]} */
  const Contact: Dict := map["name" := StringValue("daniel3"), "phones" := OtherValue]

  /** {"code": "active", "ttl": 123123} */
  const Status: Dict := map["code" := StringValue("active"), "ttl" := IntValue(123123)]

  /** The fixture: {"advert": {"id": "12", "title": "Lorem Ipsum", "status": ..., "contact": ...}} */
  const Data: Map := Map(map["advert" := MapValue(map[
    "id" := StringValue("12"),
    "title" := StringValue("Lorem Ipsum"),
    "status" := MapValue(Status),
    "contact" := MapValue(Contact)])])

  /** A literal position splits into the dot-free segments it was written with. */
  lemma SplitsAs(position: string, segs: seq<string>)
    requires |segs| >= 1 && forall i :: 0 <= i < |segs| ==> IsSegment(segs[i])
    requires Join(segs, Separator) == position
    ensures Split(position, Separator) == segs
  {
    SplitJoin(segs, Separator);
  }

  lemma SplitAdvertId()
    ensures Split("advert.id", Separator) == ["advert", "id"]
  {
    SplitsAs("advert.id", ["advert", "id"]);
  }

  /** "advert.id" finds the string "12", so `Int` fails there. */
  lemma AdvertId()
    ensures Data.Lookup("advert.id") == Flagged(Some(StringValue("12")), true)
    ensures Data.Int("advert.id") == Flagged(0, false)
  {
    SplitAdvertId();
    WalkAdvertId();
  }

  lemma WalkAdvertId()
    ensures Walk(["advert", "id"], Data.entries) == Some(StringValue("12"))
  {
    var advert := Data.entries["advert"].entries;
    assert advert["id"] == StringValue("12");
    assert ["advert", "id"][1..] == ["id"];
  }

  lemma SplitAdvertStatusTtl()
    ensures Split("advert.status.ttl", Separator) == ["advert", "status", "ttl"]
  {
    SplitsAs("advert.status.ttl", ["advert", "status", "ttl"]);
  }

  /** "advert.status.ttl" finds the int 123123, so `String` fails there. */
  lemma AdvertStatusTtl()
    ensures Data.Lookup("advert.status.ttl") == Flagged(Some(IntValue(123123)), true)
    ensures Data.Int("advert.status.ttl") == Flagged(123123, true)
    ensures Data.String("advert.status.ttl") == Flagged("", false)
  {
    SplitAdvertStatusTtl();
    WalkAdvertStatusTtl();
  }

  lemma WalkAdvertStatusTtl()
    ensures Walk(["advert", "status", "ttl"], Data.entries) == Some(IntValue(123123))
  {
    var advert := Data.entries["advert"].entries;
    assert advert["status"] == MapValue(Status);
    assert Walk(["ttl"], Status) == Some(IntValue(123123));
    assert ["status", "ttl"][1..] == ["ttl"];
    assert Walk(["status", "ttl"], advert) == Some(IntValue(123123));
    assert ["advert", "status", "ttl"][1..] == ["status", "ttl"];
  }

  lemma SplitAdvertContact()
    ensures Split("advert.contact", Separator) == ["advert", "contact"]
  {
    SplitsAs("advert.contact", ["advert", "contact"]);
  }

  /** "advert.contact" is a nested map at the last segment: the map itself is found. */
  lemma AdvertContact()
    ensures Data.Lookup("advert.contact") == Flagged(Some(MapValue(Contact)), true)
  {
    SplitAdvertContact();
    WalkAdvertContact();
  }

  lemma WalkAdvertContact()
    ensures Walk(["advert", "contact"], Data.entries) == Some(MapValue(Contact))
  {
    var advert := Data.entries["advert"].entries;
    assert advert["contact"] == MapValue(Contact);
    assert ["advert", "contact"][1..] == ["contact"];
  }

  lemma SplitAdvertBananas()
    ensures Split("advert.bananas", Separator) == ["advert", "bananas"]
  {
    SplitsAs("advert.bananas", ["advert", "bananas"]);
  }

  /** "advert.bananas" names no key under "advert". */
  lemma AdvertBananas()
    ensures Data.Lookup("advert.bananas") == Flagged(None, false)
    ensures Data.String("advert.bananas") == Flagged("", false)
    ensures Data.Int("advert.bananas") == Flagged(0, false)
  {
    SplitAdvertBananas();
    WalkAdvertBananas();
  }

  lemma WalkAdvertBananas()
    ensures Walk(["advert", "bananas"], Data.entries) == None
  {
    var advert := Data.entries["advert"].entries;
    assert "bananas" !in advert;
    assert ["advert", "bananas"][1..] == ["bananas"];
  }

  lemma SplitAdvertTitleId()
    ensures Split("advert.title.id", Separator) == ["advert", "title", "id"]
  {
    SplitsAs("advert.title.id", ["advert", "title", "id"]);
  }

  /** "advert.title.id" stops at the string title, so `Int` fails there. */
  lemma AdvertTitleId()
    ensures Data.Lookup("advert.title.id") == Flagged(Some(StringValue("Lorem Ipsum")), true)
    ensures Data.Int("advert.title.id") == Flagged(0, false)
  {
    SplitAdvertTitleId();
    WalkAdvertTitleId();
  }

  lemma WalkAdvertTitleId()
    ensures Walk(["advert", "title", "id"], Data.entries) == Some(StringValue("Lorem Ipsum"))
  {
    var advert := Data.entries["advert"].entries;
    assert advert["title"] == StringValue("Lorem Ipsum");
    assert ["advert", "title", "id"][1..] == ["title", "id"];
  }

  /** The empty position finds nothing, on the fixture and on an empty map. */
  lemma EmptyPositionTable()
    ensures Data.Lookup("") == Flagged(None, false)
    ensures New(Some(map[])).Lookup("") == Flagged(None, false)
  {
    EmptyPosition(Data);
    EmptyPosition(New(Some(map[])));
  }

  lemma SplitAdvertContactPhonesName()
    ensures Split("advert.contact.phones.name", Separator) == ["advert", "contact", "phones", "name"]
  {
    SplitsAs("advert.contact.phones.name", ["advert", "contact", "phones", "name"]);
  }

  /** "phones" holds a slice, which is passed over: "advert.contact.phones.name"
      looks "name" up in the contact map itself and finds "daniel3". */
  lemma PhonesPassedOver()
    ensures Data.Lookup("advert.contact.phones.name") == Flagged(Some(StringValue("daniel3")), true)
  {
    SplitAdvertContactPhonesName();
    WalkPhonesName();
  }

  lemma WalkPhonesName()
    ensures Walk(["advert", "contact", "phones", "name"], Data.entries) == Some(StringValue("daniel3"))
  {
    var advert := Data.entries["advert"].entries;
    assert advert["contact"] == MapValue(Contact);
    assert Walk(["name"], Contact) == Some(StringValue("daniel3"));
    assert ["phones", "name"][1..] == ["name"];
    assert Walk(["phones", "name"], Contact) == Some(StringValue("daniel3"));
    assert ["contact", "phones", "name"][1..] == ["phones", "name"];
    assert Walk(["contact", "phones", "name"], advert) == Some(StringValue("daniel3"));
    assert ["advert", "contact", "phones", "name"][1..] == ["contact", "phones", "name"];
  }

  lemma SplitAdvertContactPhones()
    ensures Split("advert.contact.phones", Separator) == ["advert", "contact", "phones"]
  {
    SplitsAs("advert.contact.phones", ["advert", "contact", "phones"]);
  }

  /** A slice at the last segment is not found. */
  lemma PhonesNotFound()
    ensures Data.Lookup("advert.contact.phones") == Flagged(None, false)
  {
    SplitAdvertContactPhones();
    WalkPhones();
  }

  lemma WalkPhones()
    ensures Walk(["advert", "contact", "phones"], Data.entries) == None
  {
    var advert := Data.entries["advert"].entries;
    assert advert["contact"] == MapValue(Contact);
    assert Walk(["phones"], Contact) == None;
    assert ["contact", "phones"][1..] == ["phones"];
    assert Walk(["contact", "phones"], advert) == None;
    assert ["advert", "contact", "phones"][1..] == ["contact", "phones"];
  }
}
