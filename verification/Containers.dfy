/**
 An entry of the container listing and the name it is known by (agent/src/docker/types.rs).
 Names and ids are byte strings. The two label values are given as already parsed.
 */
module Containers {
  import opened Common
  import opened Globs

  type Name = seq<Byte>

  datatype Summary = Summary(id: Name, names: seq<Name>, application: Option<int>, compose: Option<int>)

  function WithoutSlashes(name: Name): Name {
    if name != [] && name[0] == SLASH then WithoutSlashes(name[1..]) else name
  }

  /** Only slashes are taken off, and all of them. */
  lemma {:induction false} WithoutSlashesMeans(name: Name)
    ensures var bare := WithoutSlashes(name);
            && |bare| <= |name| && bare == name[|name| - |bare|..]
            && (bare == [] || bare[0] != SLASH)
            && forall i :: 0 <= i < |name| - |bare| ==> name[i] == SLASH
  {
    if name != [] && name[0] == SLASH {
      WithoutSlashesMeans(name[1..]);
    }
  }

  function Short(id: Name): Name {
    if |id| >= 12 then id[..12] else id
  }

  function DisplayName(c: Summary): Name {
    if c.names == [] then Short(c.id) else WithoutSlashes(c.names[0])
  }

  /** A container without names goes by the first twelve bytes of its id, any other by its first name. */
  lemma DisplayNameMeans(c: Summary)
    ensures c.names == [] ==>
              DisplayName(c) <= c.id && |DisplayName(c)| == if |c.id| <= 12 then |c.id| else 12
    ensures c.names != [] ==>
              exists n :: 0 <= n <= |c.names[0]| && DisplayName(c) == c.names[0][n..]
                          && (forall i :: 0 <= i < n ==> c.names[0][i] == SLASH)
                          && (n < |c.names[0]| ==> c.names[0][n] != SLASH)
  {
    if c.names != [] {
      WithoutSlashesMeans(c.names[0]);
      var n := |c.names[0]| - |DisplayName(c)|;
      assert DisplayName(c) == c.names[0][n..];
    }
  }
}
