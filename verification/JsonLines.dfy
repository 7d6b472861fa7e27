/**
 Cutting a chunked character stream into JSON objects (agent/src/docker/json_lines.rs).

 The accumulator tries prefixes of its buffer that end in a closing brace, the longest first, and
 leaves it to the JSON parser to say which one is a document. The parser is a parameter. All that
 is known of it is that what it accepts is one brace-balanced object, possibly after white space
 (sections 2, 4 and 7 of RFC 8259); `Scan` is that language as an automaton. Since no such text is
 a proper prefix of another, the search cannot pick a wrong boundary, and the way the stream is
 cut into chunks has no influence on the result.
 */
module JsonLines {
  import opened Common

  // ---------- one object ----------

  datatype Mode =
    | Outside                 // white space before the object
    | InObject(depth: nat)
    | InText(depth: nat)      // inside a string
    | Escaped(depth: nat)     // after a backslash inside a string
    | Closed                  // the outermost brace has just been closed
    | Broken

  predicate IsSpace(c: char) {
    c == ' ' || c == '\t' || c == '\n' || c == '\r'
  }

  function Advance(m: Mode, c: char): Mode {
    match m
    case Outside => if IsSpace(c) then Outside else if c == '{' then InObject(1) else Broken
    case InObject(d) =>
      if c == '{' then InObject(d + 1)
      else if c == '}' then if d <= 1 then Closed else InObject(d - 1)
      else if c == '"' then InText(d)
      else InObject(d)
    case InText(d) => if c == '\\' then Escaped(d) else if c == '"' then InObject(d) else InText(d)
    case Escaped(d) => InText(d)
    case Closed => Broken
    case Broken => Broken
  }

  function Scan(m: Mode, text: string): Mode {
    if text == "" then m else Advance(Scan(m, text[..|text| - 1]), text[|text| - 1])
  }

  predicate IsObject(text: string) {
    Scan(Outside, text) == Closed
  }

  lemma ClosedEndsInBrace(text: string)
    requires IsObject(text)
    ensures text != "" && text[|text| - 1] == '}'
  {
  }

  /** Nothing can follow the closing brace. */
  lemma {:induction false} NothingAfterClosed(text: string, n: nat)
    requires n < |text| && IsObject(text[..n])
    ensures Scan(Outside, text) == Broken
    decreases |text|
  {
    var before := text[..|text| - 1];
    if n < |before| {
      assert before[..n] == text[..n];
      NothingAfterClosed(before, n);
    } else {
      assert before == text[..n];
    }
  }

  lemma PrefixFree(text: string, m: nat, n: nat)
    requires m <= |text| && n <= |text| && IsObject(text[..m]) && IsObject(text[..n])
    ensures m == n
  {
    if m < n {
      assert text[..n][..m] == text[..m];
      NothingAfterClosed(text[..n], m);
    } else if n < m {
      assert text[..m][..n] == text[..n];
      NothingAfterClosed(text[..m], n);
    }
  }

  // ---------- what a text holds ----------

  predicate EndsInBrace(text: string) {
    text != "" && text[|text| - 1] == '}'
  }

  /** All that is used of the parser: a text ending in a brace that it accepts is one object. */
  ghost predicate Sound<V(!new)>(parse: string -> Option<V>) {
    forall text :: EndsInBrace(text) && parse(text).Some? ==> IsObject(text)
  }

  /** The prefix ends in a brace and the parser accepts it. */
  predicate Accepted<V>(parse: string -> Option<V>, text: string, n: nat) {
    0 < n <= |text| && EndsInBrace(text[..n]) && parse(text[..n]).Some?
  }

  /** The length of the document at the front of the text, 0 if there is none. */
  ghost function FrontLength<V(!new)>(parse: string -> Option<V>, text: string): (n: nat)
    ensures n <= |text|
    ensures n > 0 ==> Accepted(parse, text, n)
    ensures n == 0 ==> forall k: nat :: !Accepted(parse, text, k)
  {
    if exists k: nat :: Accepted(parse, text, k) then (var k: nat :| Accepted(parse, text, k); k) else 0
  }

  lemma FrontIsUnique<V(!new)>(parse: string -> Option<V>, text: string, n: nat)
    requires Sound(parse) && Accepted(parse, text, n)
    ensures FrontLength(parse, text) == n
  {
    PrefixFree(text, n, FrontLength(parse, text));
  }

  ghost function Documents<V(!new)>(parse: string -> Option<V>, text: string): seq<V>
    decreases |text|
  {
    var n := FrontLength(parse, text);
    if n == 0 then [] else [parse(text[..n]).value] + Documents(parse, text[n..])
  }

  ghost function Remainder<V(!new)>(parse: string -> Option<V>, text: string): string
    decreases |text|
  {
    var n := FrontLength(parse, text);
    if n == 0 then text else Remainder(parse, text[n..])
  }

  lemma FrontStays<V(!new)>(parse: string -> Option<V>, text: string, more: string)
    requires Sound(parse) && FrontLength(parse, text) > 0
    ensures FrontLength(parse, text + more) == FrontLength(parse, text)
  {
    var n := FrontLength(parse, text);
    assert (text + more)[..n] == text[..n];
    FrontIsUnique(parse, text + more, n);
  }

  lemma TakeFront<V(!new)>(parse: string -> Option<V>, text: string, n: nat)
    requires n == FrontLength(parse, text) && n > 0
    ensures Documents(parse, text) == [parse(text[..n]).value] + Documents(parse, text[n..])
    ensures Remainder(parse, text) == Remainder(parse, text[n..])
  {
  }

  lemma NoFront<V(!new)>(parse: string -> Option<V>, text: string)
    requires FrontLength(parse, text) == 0
    ensures Documents(parse, text) == [] && Remainder(parse, text) == text
  {
  }

  lemma PutBehind<V(!new)>(parse: string -> Option<V>, text: string, documents: seq<V>)
    requires FrontLength(parse, text) > 0
    ensures var n := FrontLength(parse, text);
            && documents + Documents(parse, text) ==
               documents + [parse(text[..n]).value] + Documents(parse, text[n..])
            && Remainder(parse, text) == Remainder(parse, text[n..])
  {
  }

  /** Decoding a first part and then the rest is decoding the whole. */
  lemma {:induction false} DecodeInParts<V(!new)>(parse: string -> Option<V>, text: string, more: string)
    requires Sound(parse)
    ensures Documents(parse, text + more) ==
            Documents(parse, text) + Documents(parse, Remainder(parse, text) + more)
    ensures Remainder(parse, text + more) == Remainder(parse, Remainder(parse, text) + more)
    decreases |text|
  {
    var n := FrontLength(parse, text);
    if n == 0 {
      NoFront(parse, text);
    } else {
      FrontStays(parse, text, more);
      DecodeInParts(parse, text[n..], more);
      TakeFront(parse, text, n);
      TakeFrontOf(parse, text, more, n);
      Associate([parse(text[..n]).value], Documents(parse, text[n..]),
                Documents(parse, Remainder(parse, text[n..]) + more));
    }
  }

  lemma TakeFrontOf<V(!new)>(parse: string -> Option<V>, text: string, more: string, n: nat)
    requires 0 < n <= |text| && n == FrontLength(parse, text + more)
    ensures parse(text[..n]).Some?
    ensures Documents(parse, text + more) == [parse(text[..n]).value] + Documents(parse, text[n..] + more)
    ensures Remainder(parse, text + more) == Remainder(parse, text[n..] + more)
  {
    assert (text + more)[..n] == text[..n] && (text + more)[n..] == text[n..] + more;
    TakeFront(parse, text + more, n);
  }

  lemma Associate<V>(a: seq<V>, b: seq<V>, c: seq<V>)
    ensures a + (b + c) == (a + b) + c
  {
  }

  // ---------- the accumulator ----------

  class JsonAccumulator<V(!new)> {
    var buffer: string

    constructor ()
      ensures buffer == ""
    {
      buffer := "";
    }

    /** Appends the chunk and takes documents from the front while there are any. */
    method Push(parse: string -> Option<V>, chunk: string) returns (documents: seq<V>)
      requires Sound(parse)
      modifies this
      ensures documents == Documents(parse, old(buffer) + chunk)
      ensures buffer == Remainder(parse, old(buffer) + chunk)
    {
      buffer := buffer + chunk;
      ghost var whole := buffer;
      documents := [];
      while true
        invariant documents + Documents(parse, buffer) == Documents(parse, whole)
        invariant Remainder(parse, buffer) == Remainder(parse, whole)
        decreases |buffer|
      {
        ghost var before := buffer;
        var document := TakeOne(parse);
        if document.None? {
          NoFront(parse, buffer);
          return;
        }
        PutBehind(parse, before, documents);
        documents := documents + [document.value];
      }
    }

    /** Tries the prefixes that end in a brace, the longest first. */
    method TakeOne(parse: string -> Option<V>) returns (document: Option<V>)
      requires Sound(parse)
      modifies this
      ensures var n := FrontLength(parse, old(buffer));
              && (document.Some? <==> n > 0)
              && (n > 0 ==> document == parse(old(buffer)[..n]))
              && buffer == old(buffer)[n..]
    {
      var searchEnd := |buffer|;
      while searchEnd > 0
        invariant 0 <= searchEnd <= |buffer| && buffer == old(buffer)
        invariant forall n :: searchEnd < n <= |buffer| ==> !Accepted(parse, buffer, n)
      {
        var brace := LastBrace(buffer, searchEnd);
        forall n | brace + 1 < n <= searchEnd ensures !Accepted(parse, buffer, n) {
          assert buffer[..n][n - 1] == buffer[n - 1];
        }
        if brace < 0 {
          break;
        }
        document := parse(buffer[..brace + 1]);
        if document.Some? {
          FrontIsUnique(parse, buffer, brace + 1);
          buffer := buffer[brace + 1..];
          return;
        }
        searchEnd := brace;
      }
      document := None;
    }
  }

  /** `rfind('}')` on the first `end` characters, -1 if there is none. */
  method LastBrace(text: string, end: nat) returns (i: int)
    requires end <= |text|
    ensures -1 <= i < end
    ensures i >= 0 ==> text[i] == '}'
    ensures forall j :: i < j < end ==> text[j] != '}'
  {
    i := end - 1;
    while i >= 0 && text[i] != '}'
      invariant -1 <= i < end
      invariant forall j :: i < j < end ==> text[j] != '}'
    {
      i := i - 1;
    }
  }

  // ---------- every way of cutting the stream ----------

  function Concat(parts: seq<string>): string {
    if parts == [] then "" else Concat(parts[..|parts| - 1]) + parts[|parts| - 1]
  }

  /** Pushes the chunks one after the other into a fresh accumulator. */
  method PushAll<V(!new)>(parse: string -> Option<V>, chunks: seq<string>) returns (documents: seq<V>, rest: string)
    requires Sound(parse)
    ensures documents == Documents(parse, Concat(chunks))
    ensures rest == Remainder(parse, Concat(chunks))
  {
    var accumulator := new JsonAccumulator<V>();
    documents := [];
    NothingInNothing(parse);
    for i := 0 to |chunks|
      invariant documents == Documents(parse, Concat(chunks[..i]))
      invariant accumulator.buffer == Remainder(parse, Concat(chunks[..i]))
    {
      assert chunks[..i + 1][..i] == chunks[..i];
      DecodeInParts(parse, Concat(chunks[..i]), chunks[i]);
      var more := accumulator.Push(parse, chunks[i]);
      documents := documents + more;
    }
    assert chunks[..|chunks|] == chunks;
    rest := accumulator.buffer;
  }

  lemma NothingInNothing<V(!new)>(parse: string -> Option<V>)
    ensures Documents(parse, "") == [] && Remainder(parse, "") == ""
  {
    assert FrontLength(parse, "") == 0;
  }

  // ---------- streams of documents ----------

  /** No document has been completed yet. */
  predicate Incomplete(text: string) {
    forall k :: 0 <= k <= |text| ==> !IsObject(text[..k])
  }

  predicate AllAccepted<V>(parse: string -> Option<V>, units: seq<string>) {
    forall i :: 0 <= i < |units| ==> EndsInBrace(units[i]) && parse(units[i]).Some?
  }

  function Values<V>(parse: string -> Option<V>, units: seq<string>): seq<V>
    requires AllAccepted(parse, units)
  {
    seq(|units|, i requires 0 <= i < |units| => parse(units[i]).value)
  }

  function Joined(units: seq<string>): string {
    if units == [] then "" else units[0] + Joined(units[1..])
  }

  lemma IncompleteHoldsNothing<V(!new)>(parse: string -> Option<V>, tail: string)
    requires Sound(parse) && Incomplete(tail)
    ensures Documents(parse, tail) == [] && Remainder(parse, tail) == tail
  {
    assert FrontLength(parse, tail) == 0;
  }

  lemma FirstUnit<V(!new)>(parse: string -> Option<V>, unit: string, rest: string)
    requires Sound(parse) && EndsInBrace(unit) && parse(unit).Some?
    ensures Documents(parse, unit + rest) == [parse(unit).value] + Documents(parse, rest)
    ensures Remainder(parse, unit + rest) == Remainder(parse, rest)
  {
    ClosedEndsInBrace(unit);
    assert (unit + rest)[..|unit|] == unit && (unit + rest)[|unit|..] == rest;
    FrontIsUnique(parse, unit + rest, |unit|);
  }

  lemma {:induction false} UnitsDecode<V(!new)>(parse: string -> Option<V>, units: seq<string>, tail: string)
    requires Sound(parse) && AllAccepted(parse, units) && Incomplete(tail)
    ensures Documents(parse, Joined(units) + tail) == Values(parse, units)
    ensures Remainder(parse, Joined(units) + tail) == tail
  {
    if units == [] {
      assert Joined(units) + tail == tail;
      IncompleteHoldsNothing(parse, tail);
    } else {
      UnitsDecode(parse, units[1..], tail);
      assert Joined(units) + tail == units[0] + (Joined(units[1..]) + tail);
      FirstUnit(parse, units[0], Joined(units[1..]) + tail);
      assert Values(parse, units) == [parse(units[0]).value] + Values(parse, units[1..]);
    }
  }

  /** How many documents of the stream are complete after `n` characters. */
  function Arrived(units: seq<string>, n: nat): (count: nat)
    ensures count <= |units|
  {
    if units == [] || n < |units[0]| then 0 else 1 + Arrived(units[1..], n - |units[0]|)
  }

  /** What has arrived of the document after those. */
  function Begun(units: seq<string>, tail: string, n: nat): string
    requires n <= |Joined(units) + tail|
  {
    if units == [] then tail[..n]
    else if n < |units[0]| then units[0][..n]
    else Begun(units[1..], tail, n - |units[0]|)
  }

  lemma ProperPrefixIncomplete(unit: string, n: nat)
    requires IsObject(unit) && n < |unit|
    ensures Incomplete(unit[..n])
  {
    forall k | 0 <= k <= n ensures !IsObject(unit[..n][..k]) {
      assert unit[..n][..k] == unit[..k];
      if IsObject(unit[..k]) {
        NothingAfterClosed(unit, k);
      }
    }
  }

  lemma PrefixIncomplete(tail: string, n: nat)
    requires Incomplete(tail) && n <= |tail|
    ensures Incomplete(tail[..n])
  {
    forall k | 0 <= k <= n ensures !IsObject(tail[..n][..k]) {
      assert tail[..n][..k] == tail[..k];
    }
  }

  lemma FirstJoined(units: seq<string>, k: nat)
    requires 0 < k <= |units|
    ensures Joined(units[..k]) == units[0] + Joined(units[1..][..k - 1])
  {
    assert units[..k][1..] == units[1..][..k - 1];
  }

  lemma CutJoined(units: seq<string>, tail: string, n: nat)
    requires units != [] && |units[0]| <= n <= |Joined(units) + tail|
    ensures n - |units[0]| <= |Joined(units[1..]) + tail|
    ensures (Joined(units) + tail)[..n] == units[0] + (Joined(units[1..]) + tail)[..n - |units[0]|]
  {
    Associate(units[0], Joined(units[1..]), tail);
  }

  /** A stream cut off anywhere is some whole documents and the beginning of another. */
  lemma {:induction false} CutStream(units: seq<string>, tail: string, n: nat)
    requires (forall i :: 0 <= i < |units| ==> IsObject(units[i])) && Incomplete(tail)
    requires n <= |Joined(units) + tail|
    ensures (Joined(units) + tail)[..n] == Joined(units[..Arrived(units, n)]) + Begun(units, tail, n)
    ensures Incomplete(Begun(units, tail, n))
  {
    if units == [] {
      assert Joined(units) + tail == tail;
      PrefixIncomplete(tail, n);
    } else if n < |units[0]| {
      assert (Joined(units) + tail)[..n] == units[0][..n];
      ProperPrefixIncomplete(units[0], n);
    } else {
      var m := n - |units[0]|;
      CutJoined(units, tail, n);
      CutStream(units[1..], tail, m);
      FirstJoined(units, Arrived(units, n));
      Associate(units[0], Joined(units[1..][..Arrived(units[1..], m)]), Begun(units[1..], tail, m));
    }
  }

  /**
   Whatever the chunks are: after `n` characters of a stream of documents with something
   incomplete behind them, exactly the documents whose closing brace has arrived have been
   emitted, in order, and the buffer is what follows them.
   */
  lemma EmittedExactlyWhenClosed<V(!new)>(
    parse: string -> Option<V>, units: seq<string>, tail: string, n: nat, chunks: seq<string>)
    requires Sound(parse) && AllAccepted(parse, units) && Incomplete(tail)
    requires n <= |Joined(units) + tail| && Concat(chunks) == (Joined(units) + tail)[..n]
    ensures AllAccepted(parse, units[..Arrived(units, n)])
    ensures Documents(parse, Concat(chunks)) == Values(parse, units[..Arrived(units, n)])
    ensures Joined(units[..Arrived(units, n)]) + Remainder(parse, Concat(chunks)) == Concat(chunks)
    ensures Arrived(units, n) < |units| ==> |Remainder(parse, Concat(chunks))| < |units[Arrived(units, n)]|
  {
    CutStream(units, tail, n);
    UnitsDecode(parse, units[..Arrived(units, n)], Begun(units, tail, n));
    BegunIsShort(units, tail, n);
  }

  /** Every document counted has arrived as a whole and the next one has not. */
  lemma {:induction false} BegunIsShort(units: seq<string>, tail: string, n: nat)
    requires n <= |Joined(units) + tail|
    ensures Arrived(units, n) < |units| ==> |Begun(units, tail, n)| < |units[Arrived(units, n)]|
  {
    if units != [] && n >= |units[0]| {
      CutJoined(units, tail, n);
      BegunIsShort(units[1..], tail, n - |units[0]|);
    }
  }

  /** An object the parser rejects stays in front and blocks all that follows, and nothing else does. */
  lemma RejectedObjectBlocks<V(!new)>(parse: string -> Option<V>, unit: string, rest: string)
    requires Sound(parse) && IsObject(unit)
    ensures Documents(parse, unit + rest) != [] <==> parse(unit).Some?
    ensures parse(unit).None? ==> Remainder(parse, unit + rest) == unit + rest
  {
    var text := unit + rest;
    ClosedEndsInBrace(unit);
    assert text[..|unit|] == unit;
    var n := FrontLength(parse, text);
    if n > 0 {
      PrefixFree(text, n, |unit|);
    } else {
      assert !Accepted(parse, text, |unit|);
    }
  }
}
