/**
 The client's list of paths (internal/engine/client.go): the critical sections that replace it.

 A path object is known by `id`; the session and key it was authenticated for never change.
 */
module ClientPaths {
  import opened Words

  datatype Path = Path(id: nat, session: uint64)

  /** The members that joined session `session`, in order. */
  function Members(paths: seq<Path>, session: uint64): (r: seq<Path>)
    ensures |r| <= |paths|
    ensures forall p :: p in r <==> p in paths && p.session == session
  {
    if paths == [] then []
    else if paths[0].session == session then [paths[0]] + Members(paths[1..], session)
    else Members(paths[1..], session)
  }

  lemma {:induction false} MembersAppend(paths: seq<Path>, p: Path, session: uint64)
    ensures Members(paths + [p], session) == Members(paths, session) + if p.session == session then [p] else []
  {
    if paths == [] {
      assert [p][1..] == [];
      assert paths + [p] == [p];
    } else {
      assert (paths + [p])[1..] == paths[1..] + [p];
      MembersAppend(paths[1..], p, session);
    }
  }

  function Outsiders(paths: seq<Path>, session: uint64): set<Path> {
    set p | p in paths && p.session != session
  }

  lemma OutsidersAppend(paths: seq<Path>, p: Path, session: uint64)
    ensures Outsiders(paths + [p], session) == Outsiders(paths, session) + if p.session != session then {p} else {}
  {
  }

  ghost predicate NoRepeats(paths: seq<Path>) {
    forall i, j :: 0 <= i < j < |paths| ==> paths[i] != paths[j]
  }

  lemma {:induction false} MembersNoRepeats(paths: seq<Path>, session: uint64)
    requires NoRepeats(paths)
    ensures NoRepeats(Members(paths, session))
  {
    if paths != [] {
      MembersNoRepeats(paths[1..], session);
      var rest := Members(paths[1..], session);
      assert forall i :: 0 <= i < |rest| ==> rest[i] in paths[1..];
      assert paths[0] !in paths[1..];
    }
  }

  /** The first path found to be `old` gives way to `replacement`. */
  function Swapped(paths: seq<Path>, stale: Path, replacement: Path): (r: seq<Path>)
    ensures |r| == |paths|
    ensures stale !in paths ==> r == paths
  {
    if paths == [] then []
    else if paths[0] == stale then [replacement] + paths[1..]
    else [paths[0]] + Swapped(paths[1..], stale, replacement)
  }

  /** Exactly the first place changes. */
  lemma {:induction false} SwappedAt(paths: seq<Path>, stale: Path, replacement: Path, k: nat)
    requires k < |paths| && paths[k] == stale && stale !in paths[..k]
    ensures Swapped(paths, stale, replacement) == paths[k := replacement]
  {
    if k > 0 {
      assert paths[..k][0] == paths[0] && paths[..k][1..] == paths[1..][..k - 1];
      SwappedAt(paths[1..], stale, replacement, k - 1);
      assert paths[k := replacement] == [paths[0]] + paths[1..][k - 1 := replacement];
    }
  }

  class Client {
    var paths: seq<Path>
    var sessionID: uint64

    constructor ()
      ensures paths == [] && sessionID == 0
    {
      paths, sessionID := [], 0;
    }

    /** Keeps the paths that joined the first one's session, in place at the front of `connected`; the other
        sockets are closed. The result is never empty, so the error for that case cannot be returned. */
    method KeepUsable(connected: array<Path>) returns (count: nat, rejected: set<Path>)
      requires connected.Length > 0
      modifies connected
      ensures 0 < count <= connected.Length
      ensures connected[..count] == Members(old(connected[..]), old(connected[0]).session)
      ensures rejected == Outsiders(old(connected[..]), old(connected[0]).session)
    {
      ghost var all := connected[..];
      var session := connected[0].session;
      count, rejected := 0, {};
      var i := 0;
      while i < connected.Length
        invariant 0 <= count <= i <= connected.Length == |all| && (i > 0 ==> count > 0)
        invariant connected[..count] == Members(all[..i], session)
        invariant forall k :: i <= k < |all| ==> connected[k] == all[k]
        invariant rejected == Outsiders(all[..i], session)
      {
        var path := connected[i];
        assert all[..i + 1] == all[..i] + [path];
        MembersAppend(all[..i], path, session);
        OutsidersAppend(all[..i], path, session);
        if path.session != session {
          rejected := rejected + {path};
        } else {
          connected[count] := path;
          count := count + 1;
        }
        i := i + 1;
      }
      assert all[..i] == all;
    }

    /** A reconnected path takes the place of the one it replaces, if that is still in use. */
    method SwapPath(stale: Path, replacement: Path) returns (replaced: bool)
      modifies this`paths
      ensures replaced == (stale in old(paths))
      ensures paths == Swapped(old(paths), stale, replacement)
    {
      replaced := false;
      var index := 0;
      while index < |paths|
        invariant 0 <= index <= |paths| && paths == old(paths) && !replaced
        invariant stale !in paths[..index]
      {
        if paths[index] == stale {
          SwappedAt(paths, stale, replacement, index);
          paths := paths[index := replacement];
          replaced := true;
          break;
        }
        index := index + 1;
      }
    }
  }
}
