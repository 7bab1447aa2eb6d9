/**
  The part of etcd that the locks rely on. A mutex on a path is a key made of
  the path and the session (lease) that asked for it; the store remembers the
  revision at which the key was created. The session whose key on a path is the
  oldest one owns the path, and revoking a session deletes all of its keys.
*/
module LockStore {

  type Session = nat
  type Keys = map<(string, Session), int>

  /** Create the session's key on a path; a key that is there already stays (re-entry). */
  function Put(keys: Keys, path: string, s: Session, rev: int): Keys {
    if (path, s) in keys then keys else keys[(path, s) := rev]
  }

  function Drop(keys: Keys, path: string, s: Session): Keys {
    map k | k in keys && k != (path, s) :: keys[k]
  }

  /** Everything the other sessions hold; also what is left when session s is revoked. */
  function Others(keys: Keys, s: Session): Keys {
    map k | k in keys && k.1 != s :: keys[k]
  }

  /** Everything session s holds. */
  function Own(keys: Keys, s: Session): Keys {
    map k | k in keys && k.1 == s :: keys[k]
  }

  function Revoke(keys: Keys, s: Session): Keys {
    Others(keys, s)
  }

  function Paths(keys: Keys, s: Session): set<string> {
    set k | k in keys && k.1 == s :: k.0
  }

  predicate Owns(keys: Keys, path: string, s: Session) {
    (path, s) in keys && forall k | k in keys && k.0 == path :: keys[(path, s)] <= keys[k]
  }

  lemma PathsMembers(keys: Keys, s: Session)
    ensures forall p: string :: p in Paths(keys, s) <==> (p, s) in keys
  {
    forall p: string
      ensures p in Paths(keys, s) <==> (p, s) in keys
    {
      if (p, s) in keys {
        assert (p, s).0 in Paths(keys, s);
      }
    }
  }

  lemma PutPaths(keys: Keys, path: string, s: Session, rev: int)
    ensures Paths(Put(keys, path, s, rev), s) == Paths(keys, s) + {path}
  {
    PathsMembers(keys, s);
    PathsMembers(Put(keys, path, s, rev), s);
  }

  lemma PutKeepsOwned(keys: Keys, path: string, s: Session, rev: int, p: string)
    requires Owns(keys, p, s)
    ensures Owns(Put(keys, path, s, rev), p, s)
  {
  }

  function SetOf(paths: seq<string>): set<string> {
    set p | p in paths
  }
}

/** How the keys of one call become the paths that are locked, in the order in which they are locked. */
module LockPaths {
  import opened Lexicographic
  import opened LockStore

  const LOCK_PREFIX := "/gapi/lock/"

  function BuildKeyPath(prefix: string, key: string): string {
    if prefix != "" then LOCK_PREFIX + prefix + "/" + key else LOCK_PREFIX + key
  }

  function BuildAll(prefix: string, keys: seq<string>): seq<string> {
    seq(|keys|, i requires 0 <= i < |keys| => BuildKeyPath(prefix, keys[i]))
  }

  function LockOrder(prefix: string, keys: seq<string>): seq<string> {
    BuildAll(prefix, Sort(keys))
  }

  lemma PathParts(prefix: string, key: string)
    ensures BuildKeyPath(prefix, key) == "/gapi/lock/" + if prefix == "" then key else prefix + "/" + key
  {
    assert LOCK_PREFIX + prefix + "/" + key == LOCK_PREFIX + (prefix + "/" + key);
  }

  /** Whatever the prefix, the path lies under the common root, and what follows is the prefix, a slash and the key. */
  lemma SamePathIff(p: string, a: string, q: string, b: string)
    ensures "/gapi/lock/" <= BuildKeyPath(p, a)
    ensures BuildKeyPath(p, a) == BuildKeyPath(q, b) <==>
            (if p == "" then a else p + "/" + a) == (if q == "" then b else q + "/" + b)
  {
    PathParts(p, a);
    PathParts(q, b);
    var root := "/gapi/lock/";
    var x, y := if p == "" then a else p + "/" + a, if q == "" then b else q + "/" + b;
    assert x == (root + x)[|root|..] && y == (root + y)[|root|..];
  }

  /** Prefixes without a slash are separate namespaces: equal paths have equal prefixes and equal keys. */
  lemma NamespacesSeparate(p: string, a: string, q: string, b: string)
    requires p != "" && q != "" && '/' !in p && '/' !in q
    requires BuildKeyPath(p, a) == BuildKeyPath(q, b)
    ensures p == q && a == b
  {
    SamePathIff(p, a, q, b);
    var x, y := p + "/" + a, q + "/" + b;
    assert x[|p|] == '/' && y[|q|] == '/';
    assert forall i | 0 <= i < |p| :: x[i] == p[i] && p[i] != '/';
    assert forall i | 0 <= i < |q| :: y[i] == q[i] && q[i] != '/';
    assert |p| == |q|;
    assert p == x[..|p|] && q == y[..|q|];
    assert a == x[|p| + 1..] && b == y[|q| + 1..];
  }

  /** A call without a prefix meets one with a prefix exactly when its key spells out prefix, slash and key. */
  lemma UnprefixedMeets(key: string, p: string, a: string)
    requires p != ""
    ensures BuildKeyPath("", key) == BuildKeyPath(p, a) <==> key == p + "/" + a
  {
    SamePathIff("", key, p, a);
  }

  /** So calls under different prefixes without a slash lock nothing in common, whatever their keys. */
  lemma NamespacesDisjoint(p: string, ks: seq<string>, q: string, ls: seq<string>)
    requires p != "" && q != "" && '/' !in p && '/' !in q && p != q
    ensures SetOf(BuildAll(p, ks)) !! SetOf(BuildAll(q, ls))
  {
    forall i, j | 0 <= i < |ks| && 0 <= j < |ls|
      ensures BuildAll(p, ks)[i] != BuildAll(q, ls)[j]
    {
      if BuildKeyPath(p, ks[i]) == BuildKeyPath(q, ls[j]) {
        NamespacesSeparate(p, ks[i], q, ls[j]);
      }
    }
  }

  /** Under one prefix, paths are ordered as their keys are. */
  lemma PathKeepsOrder(prefix: string, a: string, b: string)
    ensures Leq(BuildKeyPath(prefix, a), BuildKeyPath(prefix, b)) <==> Leq(a, b)
  {
    PrefixKeepsOrder(if prefix != "" then LOCK_PREFIX + prefix + "/" else LOCK_PREFIX, a, b);
  }

  lemma SortKeepsMembers(keys: seq<string>, k: string)
    ensures k in Sort(keys) <==> k in keys
  {
    assert k in Sort(keys) <==> k in multiset(Sort(keys));
    assert k in keys <==> k in multiset(keys);
  }

  /** The lock order is ascending in the full paths, and locks exactly what was asked for, duplicates included. */
  lemma LockOrderAscends(prefix: string, keys: seq<string>)
    ensures Ascending(LockOrder(prefix, keys)) && |LockOrder(prefix, keys)| == |keys|
    ensures SetOf(LockOrder(prefix, keys)) == SetOf(BuildAll(prefix, keys))
  {
    var sorted, paths := Sort(keys), LockOrder(prefix, keys);
    forall i, j | 0 <= i < j < |paths|
      ensures Leq(paths[i], paths[j])
    {
      PathKeepsOrder(prefix, sorted[i], sorted[j]);
    }
    forall p: string
      ensures p in SetOf(paths) <==> p in SetOf(BuildAll(prefix, keys))
    {
      if p in SetOf(paths) {
        var i :| 0 <= i < |paths| && paths[i] == p;
        SortKeepsMembers(keys, sorted[i]);
        var j :| 0 <= j < |keys| && keys[j] == sorted[i];
        assert BuildAll(prefix, keys)[j] == p;
      }
      if p in SetOf(BuildAll(prefix, keys)) {
        var j :| 0 <= j < |keys| && BuildAll(prefix, keys)[j] == p;
        SortKeepsMembers(keys, keys[j]);
        var i :| 0 <= i < |sorted| && sorted[i] == keys[j];
        assert paths[i] == p;
      }
    }
  }
}
