/** The room catalog handlers of controllers/roomController.js.

    The list columns are written as `JSON.stringify` text and read back through
    `safeJSONParse`, which never throws: it substitutes a default list for an
    empty column and for text it cannot read even after a cleanup pass. */
module RoomController {
  import opened Js
  import opened JsonList
  import opened Store
  import Listing

  const DefaultDescription: string := "Comfortable and spacious room"
  const DefaultSize: int := 25
  /** 4.5 stars, in tenths of a star. */
  const DefaultRating: int := 45
  const DefaultAmenities: seq<string> := ["WiFi", "TV", "AC"]
  const DefaultImages: seq<string> := ["https://via.placeholder.com/400x300"]

  const RoomNotFound: string := "Room not found"
  const RoomRemoved: string := "Room removed successfully"

  // ---------------------------------------------------------------------
  // safeJSONParse
  // ---------------------------------------------------------------------

  /** `s.replace(/^"|"$/g, '')`: a leading and a trailing double quote go,
      each on its own; a lone `"` is removed once. */
  function StripQuotes(s: string): (r: string)
    ensures |r| <= |s|
    ensures |s| >= 2 && s[0] == '"' && s[|s| - 1] == '"' ==> r == s[1..|s| - 1]
    ensures |s| >= 1 && s[0] == '"' && (|s| == 1 || s[|s| - 1] != '"') ==> r == s[1..]
    ensures |s| >= 1 && s[0] != '"' && s[|s| - 1] == '"' ==> r == s[..|s| - 1]
    ensures |s| == 0 || (s[0] != '"' && s[|s| - 1] != '"') ==> r == s
  {
    var a := if |s| > 0 && s[0] == '"' then s[1..] else s;
    if |a| > 0 && a[|a| - 1] == '"' then a[..|a| - 1] else a
  }

  /** `s.replace(/\\/g, '')`: every backslash goes, every other character stays. */
  function RemoveBackslashes(s: string): (r: string)
    ensures '\\' !in r
    ensures |r| <= |s|
    ensures forall c :: c != '\\' ==> multiset(r)[c] == multiset(s)[c]
    ensures |s| == 1 && s[0] != '\\' ==> r == s
  {
    if s == [] then []
    else
      var rest := RemoveBackslashes(s[1..]);
      assert s == [s[0]] + s[1..];
      if s[0] == '\\' then rest else [s[0]] + rest
  }

  /** Backslashes are removed piecewise, so the kept characters keep their
      order. */
  lemma {:induction false} RemoveBackslashesConcat(a: string, b: string)
    ensures RemoveBackslashes(a + b) == RemoveBackslashes(a) + RemoveBackslashes(b)
    decreases |a|
  {
    if a == [] {
      assert a + b == b;
    } else {
      assert (a + b)[0] == a[0];
      assert (a + b)[1..] == a[1..] + b;
      RemoveBackslashesConcat(a[1..], b);
    }
  }

  /** The text of the second parse attempt. */
  function Clean(s: string): (r: string)
    ensures '\\' !in r
    ensures |r| <= |s|
  {
    RemoveBackslashes(StripQuotes(s))
  }

  /** `safeJSONParse(value, default)`. */
  function SafeJsonParse(c: Cell, default: seq<string>): (r: Json)
    ensures !CellTruthy(c) ==> r == JArray(default)
    ensures c.Decoded? ==> r == JArray(c.items)
    ensures c.Text? && Parse(c.text).Some? ==> Some(r) == Parse(c.text)
    ensures c.Text? && Parse(c.text).None? ==>
      (Parse(Clean(c.text)).Some? && Some(r) == Parse(Clean(c.text)))
      || (Parse(Clean(c.text)).None? && r == JArray(default))
  {
    if !CellTruthy(c) then JArray(default)
    else if c.Decoded? then JArray(c.items)
    else
      match Parse(c.text)
      case Some(v) => v
      case None =>
        match Parse(Clean(c.text))
        case Some(v) => v
        case None => JArray(default)
  }

  /** A list the service stored reads back as that very list. */
  lemma StoredListReadsBack(xs: seq<string>, default: seq<string>)
    ensures SafeJsonParse(Text(Stringify(xs)), default) == JArray(xs)
  {
    ParseStringify(xs);
  }

  /** A list that was stringified twice parses on the first attempt, as a
      string: the cleanup pass is never reached for it. */
  lemma DoubleEncodedListIsString(xs: seq<string>, default: seq<string>)
    ensures SafeJsonParse(Text(Quote(Stringify(xs))), default) == JString(Stringify(xs))
  {
    ParseQuote(Stringify(xs));
  }

  /** No character of `s` needs escaping in a JSON string literal. */
  predicate Plain(s: string) {
    forall i :: 0 <= i < |s| ==> s[i] != '"' && s[i] != '\\' && s[i] as int >= 0x20
  }

  lemma {:induction false} EscapePlain(s: string)
    requires Plain(s)
    ensures Escape(s) == s
    decreases |s|
  {
    if s != [] {
      assert Plain(s[1..]);
      EscapePlain(s[1..]);
      assert [s[0]] + s[1..] == s;
    }
  }

  lemma {:induction false} ItemsPlain(xs: seq<string>)
    requires forall i :: 0 <= i < |xs| ==> Plain(xs[i])
    ensures '\\' !in Items(xs)
    decreases |xs|
  {
    if xs != [] {
      EscapePlain(xs[0]);
      if |xs| > 1 {
        ItemsPlain(xs[1..]);
      }
    }
  }

  lemma {:induction false} NoBackslashUnchanged(s: string)
    requires '\\' !in s
    ensures RemoveBackslashes(s) == s
    decreases |s|
  {
    if s != [] {
      NoBackslashUnchanged(s[1..]);
      assert [s[0]] + s[1..] == s;
    }
  }

  lemma {:induction false} NotAllWhitespace(t: string, i: int)
    requires 0 <= i < |t| && !IsWs(t[i])
    ensures SkipWs(t) != []
    decreases |t|
  {
    if IsWs(t[0]) {
      NotAllWhitespace(t[1..], i - 1);
    }
  }

  /** A list wrapped in bare quotes reads, on the first attempt, as the
      string literal `"["` followed by more text, which is not JSON. */
  lemma QuotedListUnreadable(xs: seq<string>)
    requires xs != []
    ensures Parse(['"'] + Stringify(xs) + ['"']) == None
  {
    var raw := ['"'] + Stringify(xs) + ['"'];
    var body := Items(xs) + [']', '"'];
    ItemsStartWithQuote(xs, [']', '"']);
    assert raw[1..] == ['['] + body;
    assert (['['] + body)[1..] == body;
    assert body[0] == '"';
    assert StringBody(body) == Some(([], body[1..]));
    var t := ['['] + body;
    assert t[0] == '[' && t[1..] == body;
    assert ['['] + [] == ['['];
    assert StringBody(t) == Some((['['], body[1..]));
    assert StringBody(raw[1..]) == Some((['['], body[1..]));
    NotAllWhitespace(body[1..], |body[1..]| - 1);
    assert SkipWs(raw) == raw;
  }

  /** The case the cleanup pass is for: a non-empty list of plain strings
      wrapped in quotes without escaping its inner quotes is unreadable as
      it stands, and the cleanup recovers the list. */
  lemma QuotedListRecovered(xs: seq<string>, default: seq<string>)
    requires xs != []
    requires forall i :: 0 <= i < |xs| ==> Plain(xs[i])
    ensures SafeJsonParse(Text(['"'] + Stringify(xs) + ['"']), default) == JArray(xs)
  {
    var inner := Stringify(xs);
    var raw := ['"'] + inner + ['"'];
    QuotedListUnreadable(xs);
    assert StripQuotes(raw) == inner;
    ItemsPlain(xs);
    assert '\\' !in inner;
    NoBackslashUnchanged(inner);
    ParseStringify(xs);
  }

  // ---------------------------------------------------------------------
  // Handlers
  // ---------------------------------------------------------------------

  /** The room fields of a create or update request body. */
  datatype RoomFields = RoomFields(
    name: Option<string>,
    roomType: Option<string>,
    description: Option<string>,
    price: Option<int>,
    capacity: Option<int>,
    size: Option<int>,
    amenities: Option<seq<string>>,
    images: Option<seq<string>>,
    available: Option<bool>,
    rating: Option<int>,
    featured: Option<bool>)

  /** A room as the API returns it: the row with its list columns parsed. */
  datatype RoomView = RoomView(room: Room, amenities: Json, images: Json)

  function View(r: Room): RoomView {
    RoomView(r, SafeJsonParse(r.amenities, DefaultAmenities), SafeJsonParse(r.images, DefaultImages))
  }

  /** `createRoom`: the row inserted with the defaults for missing fields. */
  function CreateRoom(s: Store, f: RoomFields, now: int): (h: Handled<RoomView>)
    ensures h.reply.Ok? && h.reply.code == 201
    ensures s.nextRoomId in h.next.rooms
    ensures h.reply.body == View(h.next.rooms[s.nextRoomId])
    ensures s.nextRoomId !in s.rooms ==> s.rooms.Keys < h.next.rooms.Keys
    ensures h.next == s.(rooms := h.next.rooms, nextRoomId := s.nextRoomId + 1)
    ensures h.next.rooms == s.rooms[s.nextRoomId := h.next.rooms[s.nextRoomId]]
  {
    var r := Room(
      s.nextRoomId,
      f.name,
      f.roomType,
      StrOr(f.description, DefaultDescription),
      f.price,
      f.capacity,
      NumOr(f.size, DefaultSize),
      Text(Stringify(DefinedOr(f.amenities, DefaultAmenities))),
      Text(Stringify(DefinedOr(f.images, DefaultImages))),
      DefinedOr(f.available, true),
      NumOr(f.rating, DefaultRating),
      FlagOrFalse(f.featured),
      now);
    var next := s.(rooms := s.rooms[r.id := r], nextRoomId := s.nextRoomId + 1);
    Handled(Ok(201, View(r)), next)
  }

  /** Omitted or falsy fields get the defaults, except `available`, which
      keeps an explicit `false`, and `featured`, which only an explicit
      `true` sets. */
  lemma CreateRoomDefaults(s: Store, f: RoomFields, now: int)
    ensures var r := CreateRoom(s, f, now).reply.body.room;
      && r.id == s.nextRoomId && r.createdAt == now
      && r.name == f.name && r.roomType == f.roomType && r.price == f.price && r.capacity == f.capacity
      && (Truthy(f.description) ==> r.description == f.description.value)
      && (!Truthy(f.description) ==> r.description == DefaultDescription)
      && (TruthyNum(f.size) ==> r.size == f.size.value)
      && (!TruthyNum(f.size) ==> r.size == DefaultSize)
      && (TruthyNum(f.rating) ==> r.rating == f.rating.value)
      && (!TruthyNum(f.rating) ==> r.rating == DefaultRating)
      && r.available == (f.available != Some(false))
      && r.featured == (f.featured == Some(true))
  {
  }

  /** Supplied lists read back exactly, omitted ones as the defaults. */
  lemma CreateRoomLists(s: Store, f: RoomFields, now: int)
    ensures var v := CreateRoom(s, f, now).reply.body;
      && v.amenities == JArray(DefinedOr(f.amenities, DefaultAmenities))
      && v.images == JArray(DefinedOr(f.images, DefaultImages))
  {
    StoredListReadsBack(DefinedOr(f.amenities, DefaultAmenities), DefaultAmenities);
    StoredListReadsBack(DefinedOr(f.images, DefaultImages), DefaultImages);
  }

  /** Both write handlers store a list column as the `JSON.stringify` text
      of the list (the default one when a create omits it). */
  lemma RoomListsStoredAsText(s: Store, id: int, f: RoomFields, now: int)
    ensures var r := CreateRoom(s, f, now).next.rooms[s.nextRoomId];
      && r.amenities == Text(Stringify(DefinedOr(f.amenities, DefaultAmenities)))
      && r.images == Text(Stringify(DefinedOr(f.images, DefaultImages)))
    ensures var h := UpdateRoom(s, id, f);
      h.reply.Ok? ==>
        && (f.amenities.Some? ==> h.next.rooms[id].amenities == Text(Stringify(f.amenities.value)))
        && (f.images.Some? ==> h.next.rooms[id].images == Text(Stringify(f.images.value)))
  {
  }

  /** Creating a room keeps the store well keyed: the new row takes the
      next id, and no stored row is touched. */
  lemma CreateRoomKeepsWellKeyed(s: Store, f: RoomFields, now: int)
    requires WellKeyed(s)
    ensures WellKeyed(CreateRoom(s, f, now).next)
    ensures forall k :: k in s.rooms ==> k in CreateRoom(s, f, now).next.rooms && CreateRoom(s, f, now).next.rooms[k] == s.rooms[k]
  {
    var t := CreateRoom(s, f, now).next;
    assert t.rooms == s.rooms[s.nextRoomId := t.rooms[s.nextRoomId]];
    forall k | k in t.rooms
      ensures t.rooms[k].id == k && 1 <= k < t.nextRoomId
    {
      if k != s.nextRoomId {
        assert k in s.rooms && t.rooms[k] == s.rooms[k];
      }
    }
  }

  /** `getRoomById`. */
  function GetRoomById(s: Store, id: int): (h: Handled<RoomView>)
    ensures h.next == s
    ensures id !in s.rooms ==> h.reply == Err(404, RoomNotFound)
    ensures id in s.rooms ==> h.reply == Ok(200, View(s.rooms[id]))
  {
    if id !in s.rooms then Handled(Err(404, RoomNotFound), s)
    else Handled(Ok(200, View(s.rooms[id])), s)
  }

  /** Whether a body supplies anything for `updateRoom` to write: the text,
      capacity, size and list fields count only when truthy, the price,
      availability, rating and featured flag whenever present. */
  predicate HasRoomFields(f: RoomFields) {
    || Truthy(f.name) || Truthy(f.roomType) || Truthy(f.description)
    || f.price.Some? || TruthyNum(f.capacity) || TruthyNum(f.size)
    || f.amenities.Some? || f.images.Some?
    || f.available.Some? || f.rating.Some? || f.featured.Some?
  }

  /** The `UPDATE rooms SET ...` of `updateRoom` applied to one row. */
  function ApplyRoomFields(r: Room, f: RoomFields): Room {
    r.(
      name := if Truthy(f.name) then f.name else r.name,
      roomType := if Truthy(f.roomType) then f.roomType else r.roomType,
      description := StrOr(f.description, r.description),
      price := if f.price.Some? then f.price else r.price,
      capacity := if TruthyNum(f.capacity) then f.capacity else r.capacity,
      size := NumOr(f.size, r.size),
      amenities := if f.amenities.Some? then Text(Stringify(f.amenities.value)) else r.amenities,
      images := if f.images.Some? then Text(Stringify(f.images.value)) else r.images,
      available := DefinedOr(f.available, r.available),
      rating := DefinedOr(f.rating, r.rating),
      featured := DefinedOr(f.featured, r.featured))
  }

  /** `updateRoom`: a body with nothing to write is refused before the id is
      looked at; otherwise only the supplied columns of that row change. */
  function UpdateRoom(s: Store, id: int, f: RoomFields): (h: Handled<RoomView>)
    ensures !HasRoomFields(f) ==> h == Handled(Err(400, NoFieldsToUpdate), s)
    ensures HasRoomFields(f) && id !in s.rooms ==> h == Handled(Err(404, RoomNotFound), s)
    ensures h.reply.Ok? <==> HasRoomFields(f) && id in s.rooms
    ensures h.reply.Ok? ==>
      && h.reply.code == 200
      && h.next == s.(rooms := s.rooms[id := h.reply.body.room])
      && h.reply.body == View(h.reply.body.room)
      && var before, after := s.rooms[id], h.reply.body.room;
      && after.id == before.id && after.createdAt == before.createdAt
      && (Truthy(f.name) ==> after.name == f.name) && (!Truthy(f.name) ==> after.name == before.name)
      && (Truthy(f.roomType) ==> after.roomType == f.roomType) && (!Truthy(f.roomType) ==> after.roomType == before.roomType)
      && (Truthy(f.description) ==> after.description == f.description.value)
      && (!Truthy(f.description) ==> after.description == before.description)
      && (TruthyNum(f.capacity) ==> after.capacity == f.capacity) && (!TruthyNum(f.capacity) ==> after.capacity == before.capacity)
      && (TruthyNum(f.size) ==> after.size == f.size.value) && (!TruthyNum(f.size) ==> after.size == before.size)
      && (f.price.Some? ==> after.price == f.price) && (f.price.None? ==> after.price == before.price)
      && (f.available.Some? ==> after.available == f.available.value) && (f.available.None? ==> after.available == before.available)
      && (f.rating.Some? ==> after.rating == f.rating.value) && (f.rating.None? ==> after.rating == before.rating)
      && (f.featured.Some? ==> after.featured == f.featured.value) && (f.featured.None? ==> after.featured == before.featured)
      && (f.amenities.Some? ==> h.reply.body.amenities == JArray(f.amenities.value))
      && (f.amenities.None? ==> after.amenities == before.amenities)
      && (f.images.Some? ==> h.reply.body.images == JArray(f.images.value))
      && (f.images.None? ==> after.images == before.images)
  {
    if !HasRoomFields(f) then Handled(Err(400, NoFieldsToUpdate), s)
    else if id !in s.rooms then Handled(Err(404, RoomNotFound), s)
    else
      var r := ApplyRoomFields(s.rooms[id], f);
      StoredListReadsBack(DefinedOr(f.amenities, []), DefaultAmenities);
      StoredListReadsBack(DefinedOr(f.images, []), DefaultImages);
      Handled(Ok(200, View(r)), s.(rooms := s.rooms[id := r]))
  }

  /** The truthiness guards drop an empty name, a zero capacity or size;
      the presence guards keep a zero price, a zero rating, and `false`. */
  lemma UpdateRoomGuards(s: Store, id: int, f: RoomFields)
    requires id in s.rooms && HasRoomFields(f)
    ensures var r := UpdateRoom(s, id, f).next.rooms[id];
      && (f.name == Some("") ==> r.name == s.rooms[id].name)
      && (f.capacity == Some(0) ==> r.capacity == s.rooms[id].capacity)
      && (f.size == Some(0) ==> r.size == s.rooms[id].size)
      && (f.price == Some(0) ==> r.price == Some(0))
      && (f.rating == Some(0) ==> r.rating == 0)
      && (f.available == Some(false) ==> !r.available)
      && (f.featured == Some(false) ==> !r.featured)
  {
  }

  /** Sending the same update twice leaves the store as the first one did. */
  lemma UpdateRoomIdempotent(s: Store, id: int, f: RoomFields)
    ensures var once := UpdateRoom(s, id, f);
            UpdateRoom(once.next, id, f).next == once.next
  {
    if HasRoomFields(f) && id in s.rooms {
      var r := ApplyRoomFields(s.rooms[id], f);
      assert ApplyRoomFields(r, f) == r;
    }
  }

  /** `deleteRoom`: an id that removes no row answers 404. */
  function DeleteRoom(s: Store, id: int): (h: Handled<string>)
    ensures id !in s.rooms ==> h == Handled(Err(404, RoomNotFound), s)
    ensures id in s.rooms ==> h.reply == Ok(200, RoomRemoved)
    ensures h.next == s.(rooms := s.rooms - {id})
  {
    if id !in s.rooms then Handled(Err(404, RoomNotFound), s)
    else Handled(Ok(200, RoomRemoved), s.(rooms := s.rooms - {id}))
  }

  /** `ORDER BY featured DESC, created_at DESC`. */
  function RoomRank(r: Room): Listing.Rank {
    Listing.Rank(if r.featured then 1 else 0, r.createdAt)
  }

  /** `getRooms`: every room once, featured rooms first, newest first within each group. */
  method GetRooms(s: Store) returns (out: seq<RoomView>)
    ensures |out| == |s.rooms|
    ensures forall i :: 0 <= i < |out| ==> out[i].room in s.rooms.Values && out[i] == View(out[i].room)
    ensures forall k :: k in s.rooms ==> exists i :: 0 <= i < |out| && out[i] == View(s.rooms[k])
    ensures forall i, j :: 0 <= i < j < |out| && out[j].room.featured ==> out[i].room.featured
    ensures forall i, j :: 0 <= i < j < |out| && out[i].room.featured == out[j].room.featured ==>
      out[i].room.createdAt >= out[j].room.createdAt
  {
    var ids := Listing.Ordered(s.rooms, s.rooms.Keys, RoomRank);
    out := Views(s.rooms, ids);
    ViewsCoverRooms(s, ids, out);
    ViewsInRankOrder(s, ids, out);
  }

  /** The room of each listed key, with its lists parsed. */
  function Views(rooms: map<int, Room>, ids: seq<int>): (r: seq<RoomView>)
    requires forall i :: 0 <= i < |ids| ==> ids[i] in rooms
    ensures |r| == |ids| && forall i :: 0 <= i < |ids| ==> r[i] == View(rooms[ids[i]])
  {
    if ids == [] then [] else [View(rooms[ids[0]])] + Views(rooms, ids[1..])
  }

  /** The views of a listing of every room key hold each room once. */
  lemma ViewsCoverRooms(s: Store, ids: seq<int>, out: seq<RoomView>)
    requires |ids| == |s.rooms.Keys|
    requires forall i :: 0 <= i < |ids| ==> ids[i] in s.rooms
    requires forall k :: k in s.rooms ==> k in ids
    requires |out| == |ids| && forall i :: 0 <= i < |ids| ==> out[i] == View(s.rooms[ids[i]])
    ensures |out| == |s.rooms|
    ensures forall i :: 0 <= i < |out| ==> out[i].room in s.rooms.Values && out[i] == View(out[i].room)
    ensures forall k :: k in s.rooms ==> exists i :: 0 <= i < |out| && out[i] == View(s.rooms[k])
  {
    assert |s.rooms.Keys| == |s.rooms|;
    forall i | 0 <= i < |out|
      ensures out[i].room in s.rooms.Values && out[i] == View(out[i].room)
    {
      assert out[i].room == s.rooms[ids[i]];
    }
    forall k | k in s.rooms
      ensures exists i :: 0 <= i < |out| && out[i] == View(s.rooms[k])
    {
      var i :| 0 <= i < |ids| && ids[i] == k;
      assert out[i] == View(s.rooms[k]);
    }
  }

  /** The views of a rank-ordered listing are featured first, then newest first. */
  lemma ViewsInRankOrder(s: Store, ids: seq<int>, out: seq<RoomView>)
    requires forall i :: 0 <= i < |ids| ==> ids[i] in s.rooms
    requires forall i, j :: 0 <= i < j < |ids| ==> Listing.AtLeast(RoomRank(s.rooms[ids[i]]), RoomRank(s.rooms[ids[j]]))
    requires |out| == |ids| && forall i :: 0 <= i < |ids| ==> out[i] == View(s.rooms[ids[i]])
    ensures forall i, j :: 0 <= i < j < |out| && out[j].room.featured ==> out[i].room.featured
    ensures forall i, j :: 0 <= i < j < |out| && out[i].room.featured == out[j].room.featured ==>
      out[i].room.createdAt >= out[j].room.createdAt
  {
    forall i, j | 0 <= i < j < |out|
      ensures out[j].room.featured ==> out[i].room.featured
      ensures out[i].room.featured == out[j].room.featured ==> out[i].room.createdAt >= out[j].room.createdAt
    {
      assert out[i].room == s.rooms[ids[i]] && out[j].room == s.rooms[ids[j]];
      assert Listing.AtLeast(RoomRank(out[i].room), RoomRank(out[j].room));
    }
  }
}
