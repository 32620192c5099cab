/** What trimming and lower-casing do to a text, said without the loops that do it. */
module Strings {
  import opened Framing
  import opened Rooms
  import opened Delivery
  import opened Prompts

  // ------------------------------------------------------------------ strings.TrimSpace

  /** Each of these is one white-space character. */
  predicate AreSpaces(pieces: seq<Text>) {
    forall i | 0 <= i < |pieces| :: IsSpace(pieces[i])
  }

  ghost predicate BeginsWithSpace(s: Text) {
    exists k | 1 <= k <= |s| :: IsSpace(s[..k])
  }

  ghost predicate EndsWithSpace(s: Text) {
    exists k | 0 <= k < |s| :: IsSpace(s[k..])
  }

  /** The length of the white-space character at the start, or at the end; 0 if there is none. */
  function SpaceAtStart(t: Text): (k: nat)
    ensures k <= |t| && (k > 0 ==> IsSpace(t[..k]))
  {
    if |t| >= 1 && IsSpace(t[..1]) then 1
    else if |t| >= 2 && IsSpace(t[..2]) then 2
    else if |t| >= 3 && IsSpace(t[..3]) then 3
    else 0
  }

  function SpaceAtEnd(t: Text): (k: nat)
    ensures k <= |t| && (k > 0 ==> IsSpace(t[|t| - k..]))
  {
    var n := |t|;
    if n >= 1 && IsSpace(t[n - 1..]) then 1
    else if n >= 2 && IsSpace(t[n - 2..]) then 2
    else if n >= 3 && IsSpace(t[n - 3..]) then 3
    else 0
  }

  lemma SpaceIsShort(s: Text, k: nat)
    requires k <= |s|
    ensures IsSpace(s[..k]) ==> 1 <= k <= 3
    ensures IsSpace(s[k..]) ==> 1 <= |s| - k <= 3
  {
  }

  lemma {:induction false} FlattenSnoc(pieces: seq<Text>, last: Text)
    ensures Flatten(pieces + [last]) == Flatten(pieces) + last
  {
    if pieces == [] {
      assert pieces + [last] == [last] && Flatten([]) == [];
    } else {
      FlattenSnoc(pieces[1..], last);
      assert (pieces + [last])[1..] == pieces[1..] + [last];
    }
  }

  lemma FlattenCons(first: Text, pieces: seq<Text>)
    ensures Flatten([first] + pieces) == first + Flatten(pieces)
  {
    assert ([first] + pieces)[1..] == pieces;
  }

  /** One character cut off, if there is one to cut. */
  lemma TrimLeftStep(t: Text) returns (first: Text, rest: Text)
    ensures t == first + rest
    ensures if first == [] then TrimLeft(t) == t && SpaceAtStart(t) == 0
            else IsSpace(first) && TrimLeft(t) == TrimLeft(rest)
  {
    var k := SpaceAtStart(t);
    first, rest := t[..k], t[k..];
  }

  lemma TrimRightStep(t: Text) returns (front: Text, last: Text)
    ensures t == front + last
    ensures if last == [] then TrimRight(t) == t && SpaceAtEnd(t) == 0
            else IsSpace(last) && TrimRight(t) == TrimRight(front)
  {
    var k := |t| - SpaceAtEnd(t);
    front, last := t[..k], t[k..];
  }

  /** What is cut off on the left, or on the right, is white space. */
  ghost predicate CutsLeft(t: Text, cut: seq<Text>, kept: Text) {
    t == Flatten(cut) + kept && AreSpaces(cut)
  }

  ghost predicate CutsRight(t: Text, kept: Text, cut: seq<Text>) {
    t == kept + Flatten(cut) && AreSpaces(cut)
  }

  lemma CutsNothing(t: Text)
    ensures CutsLeft(t, [], t) && CutsRight(t, t, [])
  {
  }

  lemma CutOneMoreLeft(first: Text, rest: Text, cut: seq<Text>, kept: Text)
    requires IsSpace(first) && CutsLeft(rest, cut, kept)
    ensures CutsLeft(first + rest, [first] + cut, kept)
  {
    FlattenCons(first, cut);
  }

  lemma CutOneMoreRight(front: Text, last: Text, kept: Text, cut: seq<Text>)
    requires IsSpace(last) && CutsRight(front, kept, cut)
    ensures CutsRight(front + last, kept, cut + [last])
  {
    FlattenSnoc(cut, last);
  }

  lemma {:induction false} TrimLeftCuts(t: Text, kept: Text) returns (cut: seq<Text>)
    requires kept == TrimLeft(t)
    ensures CutsLeft(t, cut, kept) && SpaceAtStart(kept) == 0
    decreases |t|
  {
    var first, rest := TrimLeftStep(t);
    if first == [] {
      CutsNothing(t);
      cut := [];
    } else {
      cut := TrimLeftCuts(rest, kept);
      CutOneMoreLeft(first, rest, cut, kept);
      cut := [first] + cut;
    }
  }

  lemma {:induction false} TrimRightCuts(t: Text, kept: Text) returns (cut: seq<Text>)
    requires kept == TrimRight(t)
    ensures CutsRight(t, kept, cut) && SpaceAtEnd(kept) == 0
    decreases |t|
  {
    var front, last := TrimRightStep(t);
    if last == [] {
      CutsNothing(t);
      cut := [];
    } else {
      cut := TrimRightCuts(front, kept);
      CutOneMoreRight(front, last, kept, cut);
      cut := cut + [last];
    }
  }

  lemma SpaceFoundAtStart(s: Text)
    ensures BeginsWithSpace(s) ==> SpaceAtStart(s) > 0
  {
    if BeginsWithSpace(s) {
      var k :| 1 <= k <= |s| && IsSpace(s[..k]);
      SpaceIsShort(s, k);
    }
  }

  lemma SpaceFoundThere(s: Text, d: nat)
    requires 1 <= d <= |s| && IsSpace(s[|s| - d..])
    ensures SpaceAtEnd(s) > 0
  {
    SpaceIsShort(s, |s| - d);
    assert d == 1 || d == 2 || d == 3;
  }

  lemma SpaceFoundAtEnd(s: Text)
    ensures EndsWithSpace(s) ==> SpaceAtEnd(s) > 0
  {
    if EndsWithSpace(s) {
      var k :| 0 <= k < |s| && IsSpace(s[k..]);
      SpaceFoundThere(s, |s| - k);
    }
  }

  /** Only white-space characters are cut away on either side, and none is left at either end. */
  lemma TrimSpaceCutsOnlySpace(t: Text) returns (before: seq<Text>, after: seq<Text>)
    ensures t == Flatten(before) + TrimSpace(t) + Flatten(after) && AreSpaces(before) && AreSpaces(after)
    ensures !BeginsWithSpace(TrimSpace(t)) && !EndsWithSpace(TrimSpace(t))
  {
    var left, kept := TrimLeft(t), TrimSpace(t);
    before := TrimLeftCuts(t, left);
    after := TrimRightCuts(left, kept);
    BothCuts(t, before, left, kept, after);
  }

  lemma BothCuts(t: Text, before: seq<Text>, left: Text, kept: Text, after: seq<Text>)
    requires CutsLeft(t, before, left) && CutsRight(left, kept, after)
    requires SpaceAtStart(left) == 0 && SpaceAtEnd(kept) == 0
    ensures t == Flatten(before) + kept + Flatten(after) && AreSpaces(before) && AreSpaces(after)
    ensures !BeginsWithSpace(kept) && !EndsWithSpace(kept)
  {
    SpaceFoundAtStart(left);
    SpaceFoundAtEnd(kept);
    NoneInFront(left, kept, Flatten(after));
  }

  lemma NoneInFront(all: Text, front: Text, rest: Text)
    requires all == front + rest && !BeginsWithSpace(all)
    ensures !BeginsWithSpace(front)
  {
    forall k | 1 <= k <= |front| ensures !IsSpace(front[..k]) {
      assert front[..k] == all[..k];
    }
  }

  // ------------------------------------------------------------------ strings.ToLower

  const CAPITALS := "ABCDEFGHIJKLMNOPQRSTUVWXYZ"
  const SMALL := "abcdefghijklmnopqrstuvwxyz"

  lemma CapitalsInOrder(k: nat)
    requires k < 26
    ensures |CAPITALS| == 26 && Ascii(CAPITALS)[k] as int == 65 + k
  {
  }

  lemma SmallInOrder(k: nat)
    requires k < 26
    ensures |SMALL| == 26 && Ascii(SMALL)[k] as int == 97 + k
  {
  }

  lemma OnlyCapitals(b: byte)
    ensures b in Ascii(CAPITALS) <==> 65 <= b <= 90
  {
    if 65 <= b <= 90 {
      CapitalsInOrder(b as int - 65);
    }
    if b in Ascii(CAPITALS) {
      CapitalsInOrder(0);
      var k: nat :| k < 26 && Ascii(CAPITALS)[k] == b;
      CapitalsInOrder(k);
    }
  }

  /** Capitals become the small letters of the same place in the alphabet, and nothing else changes:
      so the token that a client keeps is, letter by letter, that of the last frame. */
  lemma KeptLetterByLetter(token: Text, i: nat, k: nat)
    requires i < |token| && k < 26
    ensures |CAPITALS| == |SMALL| == 26
    ensures token[i] == Ascii(CAPITALS)[k] ==> Lower(token)[i] == Ascii(SMALL)[k]
    ensures token[i] !in Ascii(CAPITALS) ==> Lower(token)[i] == token[i]
  {
    CapitalsInOrder(k);
    SmallInOrder(k);
    OnlyCapitals(token[i]);
  }
}
