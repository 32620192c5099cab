/** What a member can read back from the texts a room sends: who said what where, and who is there. */
module Transcripts {
  import opened Wrappers
  import opened Framing
  import opened Rooms
  import opened Delivery

  const COMMA: byte := 0x2C
  const COLON: byte := 0x3A
  const BRACKET: byte := 0x5D

  /** The bytes before the first b. */
  function Before(t: Text, b: byte): (n: nat)
    ensures n <= |t| && b !in t[..n] && (n < |t| ==> t[n] == b)
  {
    if t == [] || t[0] == b then 0 else
      var n := Before(t[1..], b);
      assert t[..n + 1] == [t[0]] + t[1..][..n];
      n + 1
  }

  lemma {:induction false} BeforeTheFirst(a: Text, b: byte, rest: Text)
    requires b !in a
    ensures Before(a + [b] + rest, b) == |a|
  {
    if a != [] {
      BeforeTheFirst(a[1..], b, rest);
      assert (a + [b] + rest)[1..] == a[1..] + [b] + rest;
    }
  }

  /** What stands before the first b, and what follows it after one more byte. */
  function Cut(t: Text, b: byte): (r: Option<(Text, Text)>)
    ensures r.Some? ==> |r.value.0| + |r.value.1| < |t|
  {
    var n := Before(t, b);
    if n + 2 > |t| then None else Some((t[..n], t[n + 2..]))
  }

  lemma CutThere(a: Text, b: byte, space: byte, rest: Text)
    requires b !in a
    ensures Cut(a + [b, space] + rest, b) == Some((a, rest))
  {
    var t := a + [b, space] + rest;
    assert t == a + [b] + ([space] + rest);
    BeforeTheFirst(a, b, [space] + rest);
    assert t[..|a|] == a && t[|a| + 2..] == rest;
  }

  // ------------------------------------------------------------------ a broadcast

  datatype Utterance = Utterance(room: Text, from: Text, body: Text)

  /** Room up to the first closing bracket, sender up to the first colon after it. */
  function ReadLine(t: Text): Option<Utterance> {
    var place := Cut(t, BRACKET);
    if place.None? || place.value.0 == [] then None
    else
      var said := Cut(place.value.1, COLON);
      if said.None? then None else Some(Utterance(place.value.0[1..], said.value.0, said.value.1))
  }

  /** A reader gets room, sender and body back, whatever the body, unless the room's name has a closing
      bracket or the sender's a colon; neither the room names nor the usernames the services accept do. */
  lemma LineIsReadBack(room: Text, from: Text, body: Text)
    requires BRACKET !in room && COLON !in from
    ensures ReadLine(Line(room, from, body)) == Some(Utterance(room, from, body))
  {
    var place, said := [0x5B] + room, from + [COLON, 0x20] + body;
    assert Line(room, from, body) == place + [BRACKET, 0x20] + said;
    CutThere(place, BRACKET, 0x20, said);
    CutThere(from, COLON, 0x20, body);
  }

  /** domain.ValidateRoomName. */
  predicate ValidRoomName(name: Text) {
    3 <= |name| <= 32 && forall b | b in name :: IsRoomNameByte(b as int)
  }

  predicate IsRoomNameByte(b: int) {
    48 <= b <= 57 || 65 <= b <= 90 || 97 <= b <= 122 || b == 32 || b == 39 || b == 45 || b == 95
  }

  /** So two broadcasts to rooms with valid names look alike only if they are the same. */
  lemma LinesAreDistinct(room: Text, from: Text, body: Text, room': Text, from': Text, body': Text)
    requires ValidRoomName(room) && ValidRoomName(room') && COLON !in from && COLON !in from'
    ensures Line(room, from, body) == Line(room', from', body') <==> room == room' && from == from' && body == body'
  {
    LineIsReadBack(room, from, body);
    LineIsReadBack(room', from', body');
  }

  // ------------------------------------------------------------------ a room's roster

  /** The pieces between commas and the bytes after them. */
  function Pieces(t: Text): seq<Text>
    decreases |t|
  {
    var first := Cut(t, COMMA);
    if first.None? then [t] else [first.value.0] + Pieces(first.value.1)
  }

  lemma {:induction false} JoinedFromTheFront(names: seq<Text>)
    requires |names| >= 2
    ensures Joined(names) == names[0] + [COMMA, 0x20] + Joined(names[1..])
  {
    var n := |names| - 1;
    if n > 1 {
      JoinedFromTheFront(names[..n]);
      assert names[..n][1..] == names[1..][..n - 1];
      var a, b, c := names[0] + [COMMA, 0x20], Joined(names[1..][..n - 1]), [COMMA, 0x20] + names[n];
      assert Joined(names) == (a + b) + c;
      assert Joined(names[1..]) == b + c;
    }
  }

  lemma OneMorePiece(first: Text, rest: Text)
    requires COMMA !in first
    ensures Pieces(first + [COMMA, 0x20] + rest) == [first] + Pieces(rest)
  {
    CutThere(first, COMMA, 0x20, rest);
  }

  lemma LastPiece(t: Text)
    requires COMMA !in t
    ensures Pieces(t) == [t]
  {
    assert Before(t, COMMA) == |t|;
  }

  lemma {:induction false} NamesAreReadBack(names: seq<Text>)
    requires names != [] && forall i | 0 <= i < |names| :: COMMA !in names[i]
    ensures Pieces(Joined(names)) == names
  {
    if |names| == 1 {
      LastPiece(names[0]);
    } else {
      var first, rest := names[0], names[1..];
      assert forall i | 0 <= i < |rest| :: rest[i] == names[i + 1];
      NamesAreReadBack(rest);
      JoinedFromTheFront(names);
      OneMorePiece(first, Joined(rest));
      assert names == [first] + rest;
    }
  }

  /** The room up to " - members", and the members after the colon. */
  function ReadRoster(t: Text): Option<(Text, seq<Text>)> {
    var heading := Cut(t, COLON);
    if heading.None? || |heading.value.0| < 10 then None
    else Some((heading.value.0[..|heading.value.0| - 10], Pieces(heading.value.1)))
  }

  /** A reader gets the room and its members back, in the order they were listed. */
  lemma RosterIsReadBack(room: Text, members: seq<Text>)
    requires COLON !in room && members != [] && forall i | 0 <= i < |members| :: COMMA !in members[i]
    ensures ReadRoster(Roster(room, members)) == Some((room, members))
  {
    var separator := Ascii(" - members: ");
    SeparatorEndsInColon(separator);
    NamesAreReadBack(members);
    var heading := room + separator[..10];
    assert Roster(room, members) == heading + [COLON, 0x20] + Joined(members);
    CutThere(heading, COLON, 0x20, Joined(members));
    assert heading[..|room|] == room;
  }

  lemma SeparatorEndsInColon(separator: Text)
    requires separator == Ascii(" - members: ")
    ensures |separator| == 12 && separator[10] == COLON && separator[11] == 0x20 && COLON !in separator[..10]
    ensures separator == separator[..10] + [COLON, 0x20]
  {
    assert forall i | 0 <= i < 10 :: separator[i] != COLON;
  }
}
