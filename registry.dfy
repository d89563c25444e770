/**
 * The launcher's two lists as values: the registered games (`self.games`, a list of
 * `{name, path}` records) with their invariant and their ordering by lower-cased name,
 * and the profile names (`self.profiles`), together with the list operations
 * (`del l[i]`, `l.remove(x)`, `l.sort(key=...)`) the launcher applies to them.
 */
module Registry {
  import opened Text

  // ---------------------------------------------------------------- list operations

  /** `del s[i]`. */
  function RemoveAt<T>(s: seq<T>, i: nat): (r: seq<T>)
    requires i < |s|
    ensures |r| == |s| - 1
    ensures forall k :: 0 <= k < i ==> r[k] == s[k]
    ensures forall k :: i <= k < |r| ==> r[k] == s[k + 1]
    ensures multiset(r) == multiset(s) - multiset{s[i]}
  {
    assert s == s[..i] + [s[i]] + s[i + 1..];
    s[..i] + s[i + 1..]
  }

  /** The index `s.index(x)`: the first position holding `x`. */
  function FirstIndex<T(==)>(s: seq<T>, x: T): (k: nat)
    requires x in s
    ensures k < |s| && s[k] == x
    ensures forall j :: 0 <= j < k ==> s[j] != x
  {
    if s[0] == x then 0 else 1 + FirstIndex(s[1..], x)
  }

  /** `s.remove(x)`: drops the first occurrence of `x` (Python raises when there is none). */
  function RemoveFirst<T(==)>(s: seq<T>, x: T): (r: seq<T>)
    requires x in s
    ensures |r| == |s| - 1
    ensures multiset(r) == multiset(s) - multiset{x}
    ensures var k := FirstIndex(s, x);
      && (forall j :: 0 <= j < k ==> r[j] == s[j])
      && (forall j :: k <= j < |r| ==> r[j] == s[j + 1])
  {
    RemoveAt(s, FirstIndex(s, x))
  }

  // ---------------------------------------------------------------- profile names

  /** No name occurs twice. */
  predicate NoDup<T(==)>(s: seq<T>) {
    forall i, j :: 0 <= i < j < |s| ==> s[i] != s[j]
  }

  /** Appending a name that is not yet present keeps the list duplicate-free. */
  lemma NoDupAppend<T>(s: seq<T>, x: T)
    requires NoDup(s) && x !in s
    ensures NoDup(s + [x])
  {
    forall i, j | 0 <= i < j < |s| + 1 ensures (s + [x])[i] != (s + [x])[j] {
      if j == |s| {
        assert s[i] in s;
      }
    }
  }

  /**
   * Removing a name from a duplicate-free list removes it altogether, keeps every
   * other name, and keeps the list duplicate-free.
   */
  lemma RemoveFirstNoDup<T>(s: seq<T>, x: T)
    requires NoDup(s) && x in s
    ensures NoDup(RemoveFirst(s, x))
    ensures x !in RemoveFirst(s, x)
    ensures forall y :: y in s && y != x ==> y in RemoveFirst(s, x)
  {
    var k := FirstIndex(s, x);
    var r := RemoveFirst(s, x);
    assert r == RemoveAt(s, k);
    forall i, j | 0 <= i < j < |r| ensures r[i] != r[j] {
      var i' := if i < k then i else i + 1;
      var j' := if j < k then j else j + 1;
      assert r[i] == s[i'] && r[j] == s[j'] && i' < j';
    }
    forall i | 0 <= i < |r| ensures r[i] != x {
      var i' := if i < k then i else i + 1;
      assert r[i] == s[i'] && i' != k;
    }
    forall y | y in s && y != x ensures y in r {
      assert y in multiset(s);
    }
  }

  // ---------------------------------------------------------------- games

  /** One registered game: the record `{"name": n, "path": p}`. */
  datatype Game = Game(name: string, path: string)

  /** `any(g.get("path", "").lower() == p.lower() for g in games)`. */
  predicate PathTaken(games: seq<Game>, p: string) {
    exists g :: g in games && Lower(g.path) == Lower(p)
  }

  /** The registry invariant: no two entries share a path, ignoring case. */
  predicate DistinctPaths(games: seq<Game>) {
    forall i, j :: 0 <= i < j < |games| ==> Lower(games[i].path) != Lower(games[j].path)
  }

  /** Sequences with the same elements have the same paths. */
  lemma PathTakenPermutation(a: seq<Game>, b: seq<Game>, p: string)
    requires multiset(a) == multiset(b)
    ensures PathTaken(a, p) <==> PathTaken(b, p)
  {
    if PathTaken(a, p) {
      var g :| g in a && Lower(g.path) == Lower(p);
      assert g in multiset(b);
    }
    if PathTaken(b, p) {
      var g :| g in b && Lower(g.path) == Lower(p);
      assert g in multiset(a);
    }
  }

  /** The invariant of a list with one more game in front. */
  lemma DistinctPathsCons(g: Game, rest: seq<Game>)
    ensures DistinctPaths([g] + rest) <==> !PathTaken(rest, g.path) && DistinctPaths(rest)
  {
    var s := [g] + rest;
    if DistinctPaths(s) {
      forall i, j | 0 <= i < j < |rest| ensures Lower(rest[i].path) != Lower(rest[j].path) {
        assert rest[i] == s[i + 1] && rest[j] == s[j + 1];
      }
      forall h | h in rest ensures Lower(h.path) != Lower(g.path) {
        var j :| 0 <= j < |rest| && rest[j] == h;
        assert s[j + 1] == h && s[0] == g;
      }
    }
    if !PathTaken(rest, g.path) && DistinctPaths(rest) {
      forall i, j | 0 <= i < j < |s| ensures Lower(s[i].path) != Lower(s[j].path) {
        if i == 0 {
          assert s[j] in rest;
        } else {
          assert s[i] == rest[i - 1] && s[j] == rest[j - 1];
        }
      }
    }
  }

  /** Appending a game whose path is not yet taken keeps the invariant. */
  lemma DistinctPathsAppend(games: seq<Game>, g: Game)
    requires DistinctPaths(games) && !PathTaken(games, g.path)
    ensures DistinctPaths(games + [g])
  {
    var s := games + [g];
    forall i, j | 0 <= i < j < |s| ensures Lower(s[i].path) != Lower(s[j].path) {
      if j == |games| {
        assert s[i] in games;
      }
    }
  }

  /** Deleting one entry keeps the invariant. */
  lemma DistinctPathsRemoveAt(games: seq<Game>, i: nat)
    requires DistinctPaths(games) && i < |games|
    ensures DistinctPaths(RemoveAt(games, i))
  {
    var r := RemoveAt(games, i);
    forall a, b | 0 <= a < b < |r| ensures Lower(r[a].path) != Lower(r[b].path) {
      var a' := if a < i then a else a + 1;
      var b' := if b < i then b else b + 1;
      assert r[a] == games[a'] && r[b] == games[b'] && a' < b';
    }
  }

  // ---------------------------------------------------------------- ordering

  /** The sort key `x["name"].lower()`. */
  function NameKey(g: Game): string {
    Lower(g.name)
  }

  /** Ordered by lower-cased name, as Python compares strings. */
  predicate SortedByName(games: seq<Game>) {
    forall i, j :: 0 <= i < j < |games| ==> StrLe(NameKey(games[i]), NameKey(games[j]))
  }

  /** Inserts `g` before the first entry whose key is not smaller than its own. */
  function InsertByName(g: Game, games: seq<Game>): (r: seq<Game>)
    ensures multiset(r) == multiset(games) + multiset{g}
  {
    if games == [] || StrLe(NameKey(g), NameKey(games[0])) then [g] + games
    else
      assert games == [games[0]] + games[1..];
      [games[0]] + InsertByName(g, games[1..])
  }

  /**
   * `games.sort(key=lambda x: x["name"].lower())`. Python's sort is stable, and a stable
   * sort by a key has exactly one result; this insertion sort is one way to compute it.
   */
  function SortByName(games: seq<Game>): (r: seq<Game>)
    ensures multiset(r) == multiset(games)
  {
    if games == [] then []
    else
      assert games == [games[0]] + games[1..];
      InsertByName(games[0], SortByName(games[1..]))
  }

  lemma {:induction false} InsertByNameSorted(g: Game, games: seq<Game>)
    requires SortedByName(games)
    ensures SortedByName(InsertByName(g, games))
  {
    var r := InsertByName(g, games);
    if games == [] {
    } else if StrLe(NameKey(g), NameKey(games[0])) {
      forall i, j | 0 <= i < j < |r| ensures StrLe(NameKey(r[i]), NameKey(r[j])) {
        if i == 0 {
          if j > 1 { StrLeTrans(NameKey(g), NameKey(games[0]), NameKey(games[j - 1])); }
        } else {
          assert r[i] == games[i - 1] && r[j] == games[j - 1];
        }
      }
    } else {
      StrLeTotal(NameKey(g), NameKey(games[0]));
      var tail := games[1..];
      assert SortedByName(tail) by {
        forall i, j | 0 <= i < j < |tail| ensures StrLe(NameKey(tail[i]), NameKey(tail[j])) {
          assert tail[i] == games[i + 1] && tail[j] == games[j + 1];
        }
      }
      InsertByNameSorted(g, tail);
      var rest := InsertByName(g, tail);
      assert r == [games[0]] + rest;
      forall i, j | 0 <= i < j < |r| ensures StrLe(NameKey(r[i]), NameKey(r[j])) {
        if i == 0 {
          var h := rest[j - 1];
          assert h in multiset(rest);
          if h != g {
            var k :| 0 <= k < |tail| && tail[k] == h;
            assert games[k + 1] == h;
          }
        } else {
          assert r[i] == rest[i - 1] && r[j] == rest[j - 1];
        }
      }
    }
  }

  /** The games come out ordered by lower-cased name. */
  lemma {:induction false} SortByNameSorted(games: seq<Game>)
    ensures SortedByName(SortByName(games))
  {
    if games != [] {
      SortByNameSorted(games[1..]);
      InsertByNameSorted(games[0], SortByName(games[1..]));
    }
  }

  /** The games whose lower-cased name is `key`, in list order. */
  function WithKey(games: seq<Game>, key: string): seq<Game> {
    if games == [] then []
    else (if NameKey(games[0]) == key then [games[0]] else []) + WithKey(games[1..], key)
  }

  lemma {:induction false} InsertByNameWithKey(g: Game, games: seq<Game>, key: string)
    ensures WithKey(InsertByName(g, games), key)
      == (if NameKey(g) == key then [g] else []) + WithKey(games, key)
  {
    var r := InsertByName(g, games);
    if games == [] || StrLe(NameKey(g), NameKey(games[0])) {
      assert r[1..] == games;
    } else {
      // games[0] sorts strictly before g, so it is never among g's equals
      StrLeRefl(NameKey(g));
      assert NameKey(games[0]) != NameKey(g);
      var rest := InsertByName(g, games[1..]);
      InsertByNameWithKey(g, games[1..], key);
      assert r[0] == games[0] && r[1..] == rest;
      var head := if NameKey(games[0]) == key then [games[0]] else [];
      assert WithKey(r, key) == head + WithKey(rest, key);
      assert WithKey(games, key) == head + WithKey(games[1..], key);
      if NameKey(g) == key {
        assert head == [];
      }
    }
  }

  /**
   * Stability: the games that share a lower-cased name keep their relative order,
   * so sorting changes nothing but the interleaving of different names.
   */
  lemma {:induction false} SortByNameStable(games: seq<Game>, key: string)
    ensures WithKey(SortByName(games), key) == WithKey(games, key)
  {
    if games != [] {
      SortByNameStable(games[1..], key);
      InsertByNameWithKey(games[0], SortByName(games[1..]), key);
    }
  }

  /** A list already in order is left as it is. */
  lemma {:induction false} SortByNameOfSorted(games: seq<Game>)
    requires SortedByName(games)
    ensures SortByName(games) == games
  {
    if games != [] {
      var tail := games[1..];
      assert SortedByName(tail) by {
        forall i, j | 0 <= i < j < |tail| ensures StrLe(NameKey(tail[i]), NameKey(tail[j])) {
          assert tail[i] == games[i + 1] && tail[j] == games[j + 1];
        }
      }
      SortByNameOfSorted(tail);
      assert games == [games[0]] + tail;
    }
  }

  /** Deleting one entry from an ordered list leaves it ordered. */
  lemma RemoveAtSorted(games: seq<Game>, i: nat)
    requires SortedByName(games) && i < |games|
    ensures SortedByName(RemoveAt(games, i))
  {
    var r := RemoveAt(games, i);
    forall a, b | 0 <= a < b < |r| ensures StrLe(NameKey(r[a]), NameKey(r[b])) {
      var a' := if a < i then a else a + 1;
      var b' := if b < i then b else b + 1;
      assert r[a] == games[a'] && r[b] == games[b'] && a' < b';
    }
  }

  /** Refreshing the list twice orders it no differently from refreshing it once. */
  lemma SortByNameIdempotent(games: seq<Game>)
    ensures SortByName(SortByName(games)) == SortByName(games)
  {
    SortByNameSorted(games);
    SortByNameOfSorted(SortByName(games));
  }

  lemma {:induction false} InsertByNameDistinct(g: Game, games: seq<Game>)
    requires DistinctPaths(games) && !PathTaken(games, g.path)
    ensures DistinctPaths(InsertByName(g, games))
  {
    if games == [] || StrLe(NameKey(g), NameKey(games[0])) {
      DistinctPathsCons(g, games);
    } else {
      var tail := games[1..];
      assert games == [games[0]] + tail;
      DistinctPathsCons(games[0], tail);
      forall h | h in tail ensures Lower(h.path) != Lower(g.path) {
        assert h in games;
      }
      InsertByNameDistinct(g, tail);
      var rest := InsertByName(g, tail);
      forall h | h in rest ensures Lower(h.path) != Lower(games[0].path) {
        assert h in multiset(rest);
        if h == g {
          assert games[0] in games;
        }
      }
      DistinctPathsCons(games[0], rest);
    }
  }

  /** Sorting keeps the registry invariant. */
  lemma {:induction false} SortByNameDistinct(games: seq<Game>)
    requires DistinctPaths(games)
    ensures DistinctPaths(SortByName(games))
  {
    if games != [] {
      var tail := games[1..];
      assert games == [games[0]] + tail;
      DistinctPathsCons(games[0], tail);
      SortByNameDistinct(tail);
      PathTakenPermutation(SortByName(tail), tail, games[0].path);
      InsertByNameDistinct(games[0], SortByName(tail));
    }
  }
}
