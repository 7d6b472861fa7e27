/**
 What a wildcard pattern means, independently of any matching algorithm.

 A pattern is a list of tokens. A text matches it when the text can be cut into one piece per
 token, in order, so that every token covers its piece. The two matchers of the system
 (`Filter` and `WatchPaths`) are both proved against this definition.
 */
module Globs {

  type Byte = b: int | 0 <= b < 256

  const STAR: Byte := 42
  const SLASH: Byte := 47

  datatype Token =
    | Literal(byte: Byte)  // covers exactly this byte
    | AnyText              // covers every byte string
    | Segment              // covers every byte string without a slash

  predicate Covers(token: Token, piece: seq<Byte>) {
    match token
    case Literal(b) => piece == [b]
    case AnyText => true
    case Segment => SLASH !in piece
  }

  function Join(pieces: seq<seq<Byte>>): seq<Byte> {
    if pieces == [] then [] else pieces[0] + Join(pieces[1..])
  }

  ghost predicate IsSplit(tokens: seq<Token>, pieces: seq<seq<Byte>>, text: seq<Byte>) {
    && |pieces| == |tokens|
    && Join(pieces) == text
    && forall i :: 0 <= i < |tokens| ==> Covers(tokens[i], pieces[i])
  }

  ghost predicate Matches(tokens: seq<Token>, text: seq<Byte>) {
    exists pieces :: IsSplit(tokens, pieces, text)
  }

  lemma MatchesNothing(text: seq<Byte>)
    ensures Matches([], text) <==> text == []
  {
    if text == [] {
      assert IsSplit([], [], text);
    }
  }

  /** Cutting off the first piece. */
  lemma MatchesCons(tokens: seq<Token>, text: seq<Byte>)
    requires tokens != []
    ensures Matches(tokens, text) <==>
            exists k :: 0 <= k <= |text| && Covers(tokens[0], text[..k]) && Matches(tokens[1..], text[k..])
  {
    if Matches(tokens, text) {
      var pieces :| IsSplit(tokens, pieces, text);
      var k := |pieces[0]|;
      assert text[..k] == pieces[0] && text[k..] == Join(pieces[1..]);
      assert IsSplit(tokens[1..], pieces[1..], text[k..]);
    }
    if k :| 0 <= k <= |text| && Covers(tokens[0], text[..k]) && Matches(tokens[1..], text[k..]) {
      var rest :| IsSplit(tokens[1..], rest, text[k..]);
      var pieces := [text[..k]] + rest;
      assert pieces[1..] == rest;
      forall i | 0 <= i < |tokens| ensures Covers(tokens[i], pieces[i]) {
        if i > 0 {
          assert tokens[i] == tokens[1..][i - 1];
        }
      }
      assert IsSplit(tokens, pieces, text);
    }
  }

  lemma MatchesLiteral(tokens: seq<Token>, text: seq<Byte>)
    requires tokens != [] && tokens[0].Literal?
    ensures Matches(tokens, text) <==>
            text != [] && text[0] == tokens[0].byte && Matches(tokens[1..], text[1..])
  {
    MatchesCons(tokens, text);
    if Matches(tokens, text) {
      var k :| 0 <= k <= |text| && Covers(tokens[0], text[..k]) && Matches(tokens[1..], text[k..]);
      assert |text[..k]| == 1;
      assert text[..k][0] == text[0];
    }
    if text != [] && text[0] == tokens[0].byte && Matches(tokens[1..], text[1..]) {
      assert text[..1] == [tokens[0].byte];
    }
  }

  /** `AnyText` starts the rest of the pattern somewhere in the text. */
  lemma MatchesAnyText(tokens: seq<Token>, text: seq<Byte>)
    requires tokens != [] && tokens[0].AnyText?
    ensures Matches(tokens, text) <==> exists k :: 0 <= k <= |text| && Matches(tokens[1..], text[k..])
  {
    MatchesCons(tokens, text);
    if k :| 0 <= k <= |text| && Matches(tokens[1..], text[k..]) {
      assert Covers(tokens[0], text[..k]);
    }
  }

  predicate MayCover(token: Token, b: Byte) {
    token.AnyText? || (token.Segment? && b != SLASH)
  }

  /** A wildcard covers nothing, or one more byte that it may cover. */
  lemma MatchesWildcard(tokens: seq<Token>, text: seq<Byte>)
    requires tokens != [] && !tokens[0].Literal?
    ensures Matches(tokens, text) <==>
            || Matches(tokens[1..], text)
            || (text != [] && MayCover(tokens[0], text[0]) && Matches(tokens, text[1..]))
  {
    if Matches(tokens, text) {
      WildcardForward(tokens, text);
    }
    if Matches(tokens[1..], text) {
      MatchesCons(tokens, text);
      assert text[0..] == text && Covers(tokens[0], text[..0]);
    } else if text != [] && MayCover(tokens[0], text[0]) && Matches(tokens, text[1..]) {
      WildcardBackward(tokens, text);
    }
  }

  lemma WildcardForward(tokens: seq<Token>, text: seq<Byte>)
    requires tokens != [] && !tokens[0].Literal? && Matches(tokens, text)
    ensures Matches(tokens[1..], text)
            || (text != [] && MayCover(tokens[0], text[0]) && Matches(tokens, text[1..]))
  {
    MatchesCons(tokens, text);
    var k :| 0 <= k <= |text| && Covers(tokens[0], text[..k]) && Matches(tokens[1..], text[k..]);
    if k == 0 {
      assert text[0..] == text;
    } else {
      assert text[1..][k - 1..] == text[k..];
      assert text[..k] == [text[0]] + text[1..][..k - 1];
      MatchesCons(tokens, text[1..]);
    }
  }

  lemma WildcardBackward(tokens: seq<Token>, text: seq<Byte>)
    requires tokens != [] && text != [] && MayCover(tokens[0], text[0]) && Matches(tokens, text[1..])
    ensures Matches(tokens, text)
  {
    MatchesCons(tokens, text[1..]);
    var k :| 0 <= k <= |text[1..]| && Covers(tokens[0], text[1..][..k]) && Matches(tokens[1..], text[1..][k..]);
    assert text[1..][k..] == text[k + 1..];
    assert text[..k + 1] == [text[0]] + text[1..][..k];
    MatchesCons(tokens, text);
  }
}
