/**
 The media store: files registered under scopes, released by scope or by age. Three maps are kept consistent.
 Deleting the files themselves is represented by the list of paths handed over for deletion.
 */
module MediaStore {
  import opened Basics

  datatype MediaEntry = MediaEntry(path: string, filename: string, storedAt: int)

  /** The entries whose age limit has passed. */
  function Expired(refs: map<string, MediaEntry>, cutoff: int): set<string> {
    set ref | ref in refs && refs[ref].storedAt < cutoff
  }

  /** `scopeToRefs` is the exact inverse of `refToScope`, without empty scopes. */
  ghost predicate Inverse(refToScope: map<string, string>, scopeToRefs: map<string, set<string>>) {
    && (forall scope :: scope in scopeToRefs ==> scopeToRefs[scope] != {})
    && (forall scope, ref :: scope in scopeToRefs && ref in scopeToRefs[scope] ==>
          ref in refToScope && refToScope[ref] == scope)
    && (forall ref :: ref in refToScope ==> refToScope[ref] in scopeToRefs && ref in scopeToRefs[refToScope[ref]])
  }

  /** A scope's set of references without one of them; an empty set is not kept. */
  function Unlinked(scopeToRefs: map<string, set<string>>, scope: string, ref: string): map<string, set<string>>
    requires scope in scopeToRefs
  {
    if scopeToRefs[scope] - {ref} == {} then scopeToRefs - {scope} else scopeToRefs[scope := scopeToRefs[scope] - {ref}]
  }

  lemma UnlinkKeepsInverse(refToScope: map<string, string>, scopeToRefs: map<string, set<string>>, ref: string)
    requires Inverse(refToScope, scopeToRefs) && ref in refToScope
    ensures refToScope[ref] in scopeToRefs
    ensures Inverse(refToScope - {ref}, Unlinked(scopeToRefs, refToScope[ref], ref))
  {
    var scope := refToScope[ref];
    var left := Unlinked(scopeToRefs, scope, ref);
    forall other | other in refToScope - {ref}
      ensures refToScope[other] in left && other in left[refToScope[other]]
    {
      assert other in scopeToRefs[refToScope[other]];
      if refToScope[other] == scope {
        assert other in scopeToRefs[scope] - {ref};
      }
    }
  }

  /** The references of a scope. */
  function Owned(refToScope: map<string, string>, scope: string): set<string> {
    set ref | ref in refToScope && refToScope[ref] == scope
  }

  lemma OwnedIsListed(refToScope: map<string, string>, scopeToRefs: map<string, set<string>>, scope: string)
    requires Inverse(refToScope, scopeToRefs)
    ensures Owned(refToScope, scope) == if scope in scopeToRefs then scopeToRefs[scope] else {}
    ensures Owned(refToScope, scope) <= refToScope.Keys
  {
  }

  lemma ReleaseKeepsInverse(refToScope: map<string, string>, scopeToRefs: map<string, set<string>>, scope: string)
    requires Inverse(refToScope, scopeToRefs)
    ensures Inverse(Without(refToScope, Owned(refToScope, scope)), scopeToRefs - {scope})
    ensures scope !in scopeToRefs ==> scopeToRefs - {scope} == scopeToRefs
  {
    var refs, scopes := refToScope - Owned(refToScope, scope), scopeToRefs - {scope};
    forall ref | ref in refs ensures refs[ref] in scopes && ref in scopes[refs[ref]] {
      assert refToScope[ref] != scope;
    }
  }

  /** One path for each of the references, and no others. */
  ghost predicate PathsOf(paths: seq<string>, refs: map<string, MediaEntry>, done: set<string>)
    requires done <= refs.Keys
  {
    |paths| == |done| && forall path :: path in paths <==> exists ref :: ref in done && refs[ref].path == path
  }

  lemma NoPaths(refs: map<string, MediaEntry>)
    ensures PathsOf([], refs, {})
  {
  }

  lemma OnePathMore(paths: seq<string>, refs: map<string, MediaEntry>, done: set<string>, ref: string)
    requires done <= refs.Keys && ref in refs && ref !in done && PathsOf(paths, refs, done)
    ensures PathsOf(paths + [refs[ref].path], refs, done + {ref})
  {
    forall path | path in paths + [refs[ref].path] ensures exists r :: r in done + {ref} && refs[r].path == path {
      if path in paths {
        var r :| r in done && refs[r].path == path;
        assert r in done + {ref};
      }
    }
    forall r | r in done + {ref} ensures refs[r].path in paths + [refs[ref].path] {
    }
  }

  // ----- removing keys one by one

  function Without<V>(m: map<string, V>, keys: set<string>): map<string, V> { m - keys }

  /** The members of `all` that have been gone through when `rest` is left. */
  function Passed(all: set<string>, rest: set<string>): set<string> { all - rest }

  lemma NonePassed<V, W>(all: set<string>, m: map<string, V>, n: map<string, W>)
    requires all <= m.Keys
    ensures Passed(all, m.Keys) == {} == Passed(all, all) && Without(m, {}) == m && Without(n, {}) == n
  {
  }

  lemma AllPassed(all: set<string>)
    ensures Passed(all, {}) == all
  {
  }

  lemma OneMorePassed(all: set<string>, rest: set<string>, key: string)
    requires key in rest
    ensures key !in Passed(all, rest)
    ensures Passed(all, rest - {key}) == if key in all then Passed(all, rest) + {key} else Passed(all, rest)
    ensures |Passed(all, rest) + {key}| == |Passed(all, rest)| + 1
  {
  }

  lemma OneMoreWithout<V>(m: map<string, V>, keys: set<string>, key: string)
    requires key in m && key !in keys
    ensures key in Without(m, keys) && Without(m, keys)[key] == m[key]
    ensures Without(m, keys) - {key} == Without(m, keys + {key})
  {
  }

  lemma WithoutKeys<V, W>(m: map<string, V>, n: map<string, W>, keys: set<string>)
    requires m.Keys == n.Keys
    ensures Without(m, keys).Keys == Without(n, keys).Keys
  {
    assert Without(m, keys).Keys == m.Keys - keys == Without(n, keys).Keys;
  }

  lemma WithoutOwned<V>(m: map<string, V>, refToScope: map<string, string>, scope: string)
    requires m.Keys == refToScope.Keys
    ensures forall ref :: ref in Without(m, Owned(refToScope, scope)) <==> ref in m && refToScope[ref] != scope
  {
  }

  /** An entry goes as soon as it is older than the limit. */
  lemma WithoutExpired(refs: map<string, MediaEntry>, cutoff: int)
    ensures forall ref :: ref in Without(refs, Expired(refs, cutoff)) <==> ref in refs && cutoff <= refs[ref].storedAt
  {
  }

  lemma StoreKeepsInverse(refToScope: map<string, string>, scopeToRefs: map<string, set<string>>, scope: string, ref: string)
    requires Inverse(refToScope, scopeToRefs) && ref !in refToScope
    ensures var owned := if scope in scopeToRefs then scopeToRefs[scope] else {};
      Inverse(refToScope[ref := scope], scopeToRefs[scope := owned + {ref}])
  {
  }

  class FileMediaStore {
    const maxAge: int
    var refs: map<string, MediaEntry>
    var scopeToRefs: map<string, set<string>>
    var refToScope: map<string, string>

    ghost predicate Valid()
      reads this
    {
      refs.Keys == refToScope.Keys && Inverse(refToScope, scopeToRefs)
    }

    constructor (maxAge: int)
      ensures Valid() && refs == map[] && this.maxAge == maxAge
    {
      this.maxAge := maxAge;
      refs, scopeToRefs, refToScope := map[], map[], map[];
    }

    /** Registers a file that exists, under a new reference (the source draws a random UUID). */
    method Store(found: bool, path: string, filename: string, scope: string, ref: string, now: int) returns (ok: bool)
      requires Valid() && ref !in refs
      modifies this
      ensures Valid() && ok == found
      ensures !ok ==> refs == old(refs) && scopeToRefs == old(scopeToRefs) && refToScope == old(refToScope)
      ensures ok ==> refs == old(refs)[ref := MediaEntry(path, filename, now)] && refToScope == old(refToScope)[ref := scope]
    {
      if !found {
        return false;
      }
      hide Inverse;
      StoreKeepsInverse(refToScope, scopeToRefs, scope, ref);
      ghost var owned := if scope in scopeToRefs then scopeToRefs[scope] else {};
      refs := refs[ref := MediaEntry(path, filename, now)];
      if scope !in scopeToRefs {
        scopeToRefs := scopeToRefs[scope := {}];
      }
      scopeToRefs := scopeToRefs[scope := scopeToRefs[scope] + {ref}];
      assert scopeToRefs == old(scopeToRefs)[scope := owned + {ref}];
      refToScope := refToScope[ref := scope];
      assert refs.Keys == old(refs).Keys + {ref} == refToScope.Keys;
      return true;
    }

    method Resolve(ref: string) returns (path: Option<string>)
      ensures path == if ref in refs then Some(refs[ref].path) else None
    {
      path := if ref in refs then Some(refs[ref].path) else None;
    }

    /** Removes exactly the references of the scope, and hands over exactly their files for deletion. */
    method ReleaseAll(scope: string) returns (paths: seq<string>)
      requires Valid()
      modifies this
      ensures Valid()
      ensures refs == Without(old(refs), Owned(old(refToScope), scope))
      ensures refToScope == Without(old(refToScope), Owned(old(refToScope), scope))
      ensures PathsOf(paths, old(refs), Owned(old(refToScope), scope))
      ensures forall ref :: ref in refs <==> ref in old(refs) && old(refToScope)[ref] != scope
    {
      hide Inverse, Owned, PathsOf, Without, Passed;
      OwnedIsListed(refToScope, scopeToRefs, scope);
      ReleaseKeepsInverse(refToScope, scopeToRefs, scope);
      ghost var owned := Owned(refToScope, scope);
      NonePassed(owned, refs, refToScope);
      paths := [];
      NoPaths(refs);
      if scope !in scopeToRefs {
        WithoutOwned(refs, refToScope, scope);
        return;
      }
      var rest := scopeToRefs[scope];
      while rest != {}
        invariant rest <= owned && scopeToRefs == old(scopeToRefs)
        invariant refs == Without(old(refs), Passed(owned, rest))
        invariant refToScope == Without(old(refToScope), Passed(owned, rest))
        invariant Passed(owned, rest) <= old(refs).Keys && PathsOf(paths, old(refs), Passed(owned, rest))
        decreases rest
      {
        var ref :| ref in rest;
        OneMorePassed(owned, rest, ref);
        OneMoreWithout(old(refs), Passed(owned, rest), ref);
        OneMoreWithout(old(refToScope), Passed(owned, rest), ref);
        OnePathMore(paths, old(refs), Passed(owned, rest), ref);
        rest := rest - {ref};
        paths := paths + [refs[ref].path];
        refs := refs - {ref};
        refToScope := refToScope - {ref};
      }
      AllPassed(owned);
      scopeToRefs := scopeToRefs - {scope};
      WithoutKeys(old(refs), old(refToScope), owned);
      WithoutOwned(old(refs), old(refToScope), scope);
    }

    /**
     Removes and counts exactly the entries older than the age limit, and hands over exactly their files for deletion;
     a limit that is not positive disables it.
     */
    method CleanExpired(now: int) returns (count: nat, paths: seq<string>)
      requires Valid()
      modifies this
      ensures Valid()
      ensures maxAge <= 0 ==> count == 0 && paths == [] && refs == old(refs) && refToScope == old(refToScope)
      ensures maxAge > 0 ==>
        && refs == Without(old(refs), Expired(old(refs), now - maxAge))
        && refToScope == Without(old(refToScope), Expired(old(refs), now - maxAge))
        && Expired(old(refs), now - maxAge) <= old(refs).Keys
        && PathsOf(paths, old(refs), Expired(old(refs), now - maxAge))
        && count == |Expired(old(refs), now - maxAge)|
      ensures maxAge > 0 ==> forall ref :: ref in refs <==> ref in old(refs) && now - old(refs)[ref].storedAt <= maxAge
    {
      WithoutExpired(refs, now - maxAge);
      hide Inverse, Unlinked, Without, Passed, PathsOf;
      count, paths := 0, [];
      if maxAge <= 0 {
        return;
      }
      var cutoff := now - maxAge;
      var rest := refs.Keys;
      ghost var expired := Expired(refs, cutoff);
      NonePassed(expired, refs, refToScope);
      NoPaths(refs);
      while rest != {}
        invariant rest <= old(refs).Keys && Inverse(refToScope, scopeToRefs)
        invariant refs == Without(old(refs), Passed(expired, rest))
        invariant refToScope == Without(old(refToScope), Passed(expired, rest))
        invariant count == |Passed(expired, rest)|
        invariant Passed(expired, rest) <= old(refs).Keys && PathsOf(paths, old(refs), Passed(expired, rest))
        decreases rest
      {
        var ref :| ref in rest;
        ghost var passed := Passed(expired, rest);
        OneMorePassed(expired, rest, ref);
        OneMoreWithout(old(refs), Passed(expired, rest), ref);
        OneMoreWithout(old(refToScope), Passed(expired, rest), ref);
        rest := rest - {ref};
        if refs[ref].storedAt < cutoff {
          OnePathMore(paths, old(refs), passed, ref);
          paths := paths + [refs[ref].path];
          UnlinkKeepsInverse(refToScope, scopeToRefs, ref);
          Unlink(refToScope[ref], ref);
          refs := refs - {ref};
          refToScope := refToScope - {ref};
          count := count + 1;
        }
      }
      AllPassed(expired);
      WithoutKeys(old(refs), old(refToScope), expired);
    }

    method Unlink(scope: string, ref: string)
      modifies this`scopeToRefs
      ensures scopeToRefs ==
        if scope in old(scopeToRefs) then Unlinked(old(scopeToRefs), scope, ref) else old(scopeToRefs)
    {
      if scope in scopeToRefs {
        var scopeRefs := scopeToRefs[scope] - {ref};
        if scopeRefs == {} {
          scopeToRefs := scopeToRefs - {scope};
        } else {
          scopeToRefs := scopeToRefs[scope := scopeRefs];
        }
      }
    }
  }
}
