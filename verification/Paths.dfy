/**
 Slash-separated paths: `split('/')`, `join("/")` and the order of names.
 */
module Paths {

  function Split(path: string): (components: seq<string>)
    ensures components != []
    ensures forall i :: 0 <= i < |components| ==> '/' !in components[i]
  {
    if path == "" then [""]
    else
      var rest := Split(path[1..]);
      if path[0] == '/' then [""] + rest else [[path[0]] + rest[0]] + rest[1..]
  }

  function Join(components: seq<string>): string
    requires components != []
  {
    if |components| == 1 then components[0] else components[0] + "/" + Join(components[1..])
  }

  lemma {:induction false} JoinSplit(path: string)
    ensures Join(Split(path)) == path
  {
    if path != "" {
      JoinSplit(path[1..]);
      var rest := Split(path[1..]);
      if path[0] == '/' {
        assert ([""] + rest)[1..] == rest;
      } else {
        assert ([[path[0]] + rest[0]] + rest[1..])[1..] == rest[1..];
      }
    }
  }

  lemma {:induction false} SplitName(name: string)
    requires '/' !in name
    ensures Split(name) == [name]
  {
    if name != "" {
      SplitName(name[1..]);
      assert [name[0]] + name[1..] == name;
    }
  }

  lemma {:induction false} SplitPrefixed(name: string, path: string)
    requires '/' !in name
    ensures Split(name + "/" + path) == [name] + Split(path)
  {
    if name == "" {
      assert ("" + "/" + path)[1..] == path;
    } else {
      SplitPrefixed(name[1..], path);
      assert (name + "/" + path)[1..] == name[1..] + "/" + path;
      assert [name[0]] + name[1..] == name;
    }
  }

  lemma {:induction false} SplitJoin(components: seq<string>)
    requires components != []
    requires forall i :: 0 <= i < |components| ==> '/' !in components[i]
    ensures Split(Join(components)) == components
  {
    if |components| == 1 {
      SplitName(components[0]);
    } else {
      SplitJoin(components[1..]);
      SplitPrefixed(components[0], Join(components[1..]));
    }
  }

  /** The components that are not empty, `parts` of the source. */
  function NonEmpty(components: seq<string>): (parts: seq<string>)
    ensures |parts| <= |components|
    ensures forall i :: 0 <= i < |parts| ==> parts[i] != "" && parts[i] in components
    ensures |parts| == |components| ==> parts == components
  {
    if components == [] then []
    else if components[0] == "" then NonEmpty(components[1..])
    else [components[0]] + NonEmpty(components[1..])
  }

  lemma {:induction false} NonEmptyKeeps(components: seq<string>)
    requires forall i :: 0 <= i < |components| ==> components[i] != ""
    ensures NonEmpty(components) == components
  {
    if components != [] {
      NonEmptyKeeps(components[1..]);
    }
  }

  // ---------- the order of names ----------

  predicate Less(a: string, b: string) {
    b != "" && (a == "" || a[0] < b[0] || (a[0] == b[0] && Less(a[1..], b[1..])))
  }

  /** `a` ends where `b` goes on, or has the smaller character at the first difference. */
  ghost predicate Precedes(a: string, b: string) {
    exists k :: 0 <= k <= |a| && k < |b| && a[..k] == b[..k] && (k == |a| || a[k] < b[k])
  }

  /** The order of names is the lexicographic one. */
  lemma {:induction false} LessMeans(a: string, b: string)
    ensures Less(a, b) <==> Precedes(a, b)
  {
    if a != "" && b != "" && a[0] == b[0] {
      LessMeans(a[1..], b[1..]);
      if k :| 0 <= k <= |a[1..]| && k < |b[1..]| && a[1..][..k] == b[1..][..k] && (k == |a[1..]| || a[1..][k] < b[1..][k]) {
        assert a[..k + 1] == [a[0]] + a[1..][..k] && b[..k + 1] == [b[0]] + b[1..][..k];
      }
      if k :| 0 <= k <= |a| && k < |b| && a[..k] == b[..k] && (k == |a| || a[k] < b[k]) {
        assert k > 0;
        assert a[1..][..k - 1] == a[..k][1..] && b[1..][..k - 1] == b[..k][1..];
      }
    } else if b != "" && (a == "" || a[0] < b[0]) {
      assert a[..0] == b[..0];
    }
  }

  lemma {:induction false} LessAsymmetric(a: string, b: string)
    requires Less(a, b)
    ensures !Less(b, a) && a != b
  {
    if a != "" && a[0] == b[0] {
      LessAsymmetric(a[1..], b[1..]);
    }
  }

  lemma {:induction false} LessTotal(a: string, b: string)
    ensures Less(a, b) || a == b || Less(b, a)
  {
    if a != "" && b != "" && a[0] == b[0] {
      LessTotal(a[1..], b[1..]);
      assert a == [a[0]] + a[1..] && b == [b[0]] + b[1..];
    }
  }

  lemma {:induction false} LessTransitive(a: string, b: string, c: string)
    requires Less(a, b) && Less(b, c)
    ensures Less(a, c)
  {
    if a != "" && a[0] == b[0] == c[0] {
      LessTransitive(a[1..], b[1..], c[1..]);
    }
  }
}
