/**
 * What the `indexList` query returns: the index service's name-to-UUID map
 * read in its iteration order, the first `start` keys dropped whatever they
 * are, then the first `rows` keys whose name contains `keywords`, each with
 * its UUID.
 */
module IndexPaging {
  import opened Wrappers
  import opened JavaLang

  /** A `java.util.UUID`, as its 128-bit value. */
  newtype Uuid = x: int | 0 <= x < 0x1_0000_0000_0000_0000_0000_0000_0000_0000

  /** An index name and its UUID: one entry of the map and of the answer. */
  datatype Index = Index(name: string, id: Uuid)

  /** The `Map<String, UUID>` returned by `getIndexes()`, as its entries in iteration order. */
  type IndexMap = seq<Index>

  /** A map never holds two entries for one key. */
  ghost predicate DistinctNames(m: IndexMap) {
    forall i, j :: 0 <= i < j < |m| ==> m[i].name != m[j].name
  }

  /** `m.get(name)`: the UUID of the entry for `name`, or null. */
  function Get(m: IndexMap, name: string): (r: Option<Uuid>)
    ensures r.None? <==> forall i :: 0 <= i < |m| ==> m[i].name != name
    ensures r.Some? ==> exists i :: 0 <= i < |m| && m[i] == Index(name, r.value)
  {
    if m == [] then None
    else if m[0].name == name then Some(m[0].id)
    else Get(m[1..], name)
  }

  /** `start` when the argument is absent is 0. */
  function StartOrDefault(startArg: Option<Int32>): (start: int)
    ensures -0x8000_0000 <= start < 0x8000_0000
    ensures startArg.None? ==> start == 0
    ensures startArg.Some? ==> start == startArg.value as int
  {
    if startArg.None? then 0 else startArg.value as int
  }

  /** `rows` when the argument is absent is 20. */
  function RowsOrDefault(rowsArg: Option<Int32>): (rows: int)
    ensures -0x8000_0000 <= rows < 0x8000_0000
    ensures rowsArg.None? ==> rows == 20
    ensures rowsArg.Some? ==> rows == rowsArg.value as int
  {
    if rowsArg.None? then 20 else rowsArg.value as int
  }

  /** The keyword test: a null `keywords` lets every name through. */
  function Matches(keywords: Option<string>, name: string): (b: bool)
    ensures keywords.None? ==> b
    ensures keywords.Some? ==> (b <==> exists i :: OccursAt(name, keywords.value, i))
  {
    if keywords.None? then true
    else
      ContainsIff(name, keywords.value);
      Contains(name, keywords.value)
  }

  /** How many keys the first loop discards: `start` of them, or all if fewer. */
  function Skipped(start: int, count: nat): (n: nat)
    ensures n <= count
    ensures start <= 0 ==> n == 0
    ensures 0 <= start <= count ==> n == start
    ensures start >= count ==> n == count
  {
    if start <= 0 then 0 else if start < count then start else count
  }

  /** The entries of `m` whose name matches `keywords`, in order. */
  function Matching(m: seq<Index>, keywords: Option<string>): (r: seq<Index>)
    ensures |r| <= |m|
  {
    if m == [] then []
    else
      var last := m[|m| - 1];
      Matching(m[..|m| - 1], keywords) + (if Matches(keywords, last.name) then [last] else [])
  }

  /** At most `n` elements from the front of `s`; none when `n` is not positive. */
  function Prefix<T>(s: seq<T>, n: int): (r: seq<T>)
    ensures |r| <= |s| && r == s[..|r|]
    ensures n <= 0 ==> r == []
    ensures n > 0 ==> |r| == if |s| < n then |s| else n
  {
    if n <= 0 then [] else if |s| <= n then s else s[..n]
  }

  /** The answer of `indexList` for the resolved `start` and `rows`. */
  function Page(m: IndexMap, keywords: Option<string>, start: int, rows: int): (r: seq<Index>)
    ensures |r| <= |m| - Skipped(start, |m|)
  {
    Prefix(Matching(m[Skipped(start, |m|)..], keywords), rows)
  }

  // ---------------------------------------------------------------------
  // Properties of Matching

  /** Matching one more entry at the end. */
  lemma MatchingSnoc(a: seq<Index>, x: Index, keywords: Option<string>)
    ensures Matching(a + [x], keywords) == Matching(a, keywords) + (if Matches(keywords, x.name) then [x] else [])
  {
    assert (a + [x])[..|a + [x]| - 1] == a;
  }

  /** Filtering a concatenation filters each part. */
  lemma {:induction false} MatchingAppend(a: seq<Index>, b: seq<Index>, keywords: Option<string>)
    ensures Matching(a + b, keywords) == Matching(a, keywords) + Matching(b, keywords)
    decreases |b|
  {
    if b == [] {
      assert a + b == a;
    } else {
      var b' := b[..|b| - 1];
      assert a + b == (a + b') + [b[|b| - 1]];
      MatchingSnoc(a + b', b[|b| - 1], keywords);
      MatchingSnoc(b', b[|b| - 1], keywords);
      MatchingAppend(a, b', keywords);
    }
  }

  /** Every kept entry matches and is an entry of `m`. */
  lemma {:induction false} MatchingSound(m: seq<Index>, keywords: Option<string>)
    ensures forall j :: 0 <= j < |Matching(m, keywords)| ==>
              Matches(keywords, Matching(m, keywords)[j].name) && Matching(m, keywords)[j] in m
    decreases |m|
  {
    if m != [] {
      var init := m[..|m| - 1];
      MatchingSound(init, keywords);
      assert forall x :: x in init ==> x in m;
    }
  }

  /** Every entry of `m` that matches is kept. */
  lemma {:induction false} MatchingComplete(m: seq<Index>, keywords: Option<string>, j: int)
    requires 0 <= j < |m| && Matches(keywords, m[j].name)
    ensures m[j] in Matching(m, keywords)
    decreases |m|
  {
    var init := m[..|m| - 1];
    if j < |m| - 1 {
      MatchingComplete(init, keywords, j);
      assert init[j] == m[j];
    }
  }

  /** With `keywords` null nothing is filtered out. */
  lemma {:induction false} MatchingNullKeeps(m: seq<Index>)
    ensures Matching(m, None) == m
    decreases |m|
  {
    if m != [] {
      MatchingNullKeeps(m[..|m| - 1]);
    }
  }

  /** The empty keyword is contained in every name, so it filters nothing either. */
  lemma {:induction false} MatchingEmptyKeeps(m: seq<Index>)
    ensures Matching(m, Some("")) == m
    decreases |m|
  {
    if m != [] {
      MatchingEmptyKeeps(m[..|m| - 1]);
      ContainsEmptyAndSelf(m[|m| - 1].name);
    }
  }

  // ---------------------------------------------------------------------
  // The collecting loop of indexList

  /** One step of the collecting loop: the entry at `hi` is kept, as it matches. */
  lemma CollectKeep(m: IndexMap, lo: int, hi: int, keywords: Option<string>)
    requires 0 <= lo <= hi < |m| && Matches(keywords, m[hi].name)
    ensures Matching(m[lo..hi + 1], keywords) == Matching(m[lo..hi], keywords) + [m[hi]]
  {
    assert m[lo..hi + 1] == m[lo..hi] + [m[hi]];
    MatchingSnoc(m[lo..hi], m[hi], keywords);
  }

  /** One step of the collecting loop: the entry at `hi` is passed over, as it does not match. */
  lemma CollectDrop(m: IndexMap, lo: int, hi: int, keywords: Option<string>)
    requires 0 <= lo <= hi < |m| && !Matches(keywords, m[hi].name)
    ensures Matching(m[lo..hi + 1], keywords) == Matching(m[lo..hi], keywords)
  {
    assert m[lo..hi + 1] == m[lo..hi] + [m[hi]];
    MatchingSnoc(m[lo..hi], m[hi], keywords);
  }

  /**
   * Where the collecting loop can stop: at the end of the map, or once it
   * holds `rows` entries; what it holds is then the page.
   */
  lemma PageFromStop(m: IndexMap, keywords: Option<string>, start: int, rows: int, stop: int)
    requires Skipped(start, |m|) <= stop <= |m|
    requires var got := Matching(m[Skipped(start, |m|)..stop], keywords);
             && (rows <= 0 ==> stop == Skipped(start, |m|))
             && (rows > 0 ==> |got| <= rows && (|got| == rows || stop == |m|))
    ensures Page(m, keywords, start, rows) == Matching(m[Skipped(start, |m|)..stop], keywords)
  {
    var skip := Skipped(start, |m|);
    var a := m[skip..stop];
    var b := m[stop..];
    assert m[skip..] == a + b;
    MatchingAppend(a, b, keywords);
    PrefixOfAppend(Matching(a, keywords), Matching(b, keywords), rows);
  }

  /** Cutting `a + b` to `n` elements leaves `a` when `a` has `n` elements, or `b` is empty. */
  lemma PrefixOfAppend<T>(a: seq<T>, b: seq<T>, n: int)
    requires n <= 0 ==> a == []
    requires n > 0 ==> |a| <= n && (|a| == n || b == [])
    ensures Prefix(a + b, n) == a
  {
    if n > 0 && |a| == n {
      assert (a + b)[..n] == a;
    } else if n > 0 {
      assert a + b == a;
    }
  }

  // ---------------------------------------------------------------------
  // Properties of Page

  /** At most `rows` entries; none when `rows` is not positive. */
  lemma PageBounded(m: IndexMap, keywords: Option<string>, start: int, rows: int)
    ensures rows <= 0 ==> Page(m, keywords, start, rows) == []
    ensures |Page(m, keywords, start, rows)| <= if rows < 0 then 0 else rows
  {
  }

  /** A `start` at or past the last key gives an empty answer, not an error. */
  lemma PageStartPastEnd(m: IndexMap, keywords: Option<string>, start: int, rows: int)
    requires start >= |m|
    ensures Page(m, keywords, start, rows) == []
  {
    assert m[Skipped(start, |m|)..] == [];
  }

  /**
   * Every entry of the answer is an entry of the map at or after the
   * skipped prefix, and its name contains `keywords`.
   */
  lemma PageSound(m: IndexMap, keywords: Option<string>, start: int, rows: int, j: int)
    requires 0 <= j < |Page(m, keywords, start, rows)|
    ensures var e := Page(m, keywords, start, rows)[j];
            Matches(keywords, e.name) && e in m[Skipped(start, |m|)..]
  {
    var rest := m[Skipped(start, |m|)..];
    MatchingSound(rest, keywords);
    assert Page(m, keywords, start, rows)[j] == Matching(rest, keywords)[j];
  }

  /**
   * Each entry of the answer carries the UUID that `get` finds for its name,
   * since a map has one entry per key.
   */
  /** `keywords` set to "" gives the same page as no keywords at all. */
  lemma PageEmptyKeywordsUnfiltered(m: IndexMap, start: int, rows: int)
    ensures Page(m, Some(""), start, rows) == Page(m, None, start, rows)
  {
    var rest := m[Skipped(start, |m|)..];
    MatchingEmptyKeeps(rest);
    MatchingNullKeeps(rest);
  }

  lemma PageIdsAreStored(m: IndexMap, keywords: Option<string>, start: int, rows: int, j: int)
    requires DistinctNames(m)
    requires 0 <= j < |Page(m, keywords, start, rows)|
    ensures var e := Page(m, keywords, start, rows)[j];
            Get(m, e.name) == Some(e.id)
  {
    PageSound(m, keywords, start, rows, j);
    var e := Page(m, keywords, start, rows)[j];
    var k :| Skipped(start, |m|) <= k < |m| && m[k] == e;
    GetDistinct(m, k);
  }

  /** In a map with one entry per key, `get` finds each entry's UUID. */
  /** Every entry of the page carries the UUID `get` finds for its name. */
  lemma PageIdsAllStored(m: IndexMap, keywords: Option<string>, start: int, rows: int)
    requires DistinctNames(m)
    ensures var p := Page(m, keywords, start, rows);
            forall j :: 0 <= j < |p| ==> Get(m, p[j].name) == Some(p[j].id)
  {
    var p := Page(m, keywords, start, rows);
    forall j | 0 <= j < |p|
      ensures Get(m, p[j].name) == Some(p[j].id)
    {
      PageIdsAreStored(m, keywords, start, rows, j);
    }
  }

  lemma {:induction false} GetDistinct(m: IndexMap, k: int)
    requires DistinctNames(m) && 0 <= k < |m|
    ensures Get(m, m[k].name) == Some(m[k].id)
    decreases |m|
  {
    if k > 0 {
      assert m[0].name != m[k].name;
      GetDistinct(m[1..], k - 1);
    }
  }

  /**
   * The answer stops at some entry `stop`: it is exactly the matching
   * entries between the skipped prefix and `stop`, in iteration order, so
   * no matching key before the last returned one is left out; and unless
   * it holds `rows` entries, `stop` is the end of the map.
   */
  lemma PageIsMatchingUpTo(m: IndexMap, keywords: Option<string>, start: int, rows: int)
    ensures var skip := Skipped(start, |m|);
            exists stop :: skip <= stop <= |m|
              && Page(m, keywords, start, rows) == Matching(m[skip..stop], keywords)
              && (|Page(m, keywords, start, rows)| < rows ==> stop == |m|)
  {
    var skip := Skipped(start, |m|);
    var rest := m[skip..];
    var all := Matching(rest, keywords);
    if rows <= 0 {
      assert m[skip..skip] == [];
    } else if |all| <= rows {
      assert m[skip..|m|] == rest;
    } else {
      var stop := StopAfter(rest, keywords, rows);
      assert m[skip..skip + stop] == rest[..stop];
    }
  }

  /**
   * The shortest prefix of `m` holding `n` matching entries, when there
   * are more than `n` of them.
   */
  lemma {:induction false} StopAfter(m: seq<Index>, keywords: Option<string>, n: int) returns (stop: nat)
    requires 0 < n < |Matching(m, keywords)|
    ensures stop <= |m|
    ensures Matching(m[..stop], keywords) == Prefix(Matching(m, keywords), n)
    decreases |m|
  {
    var init := m[..|m| - 1];
    var last := m[|m| - 1];
    assert m == init + [last];
    MatchingSnoc(init, last, keywords);
    var pre := Matching(init, keywords);
    if n < |pre| {
      stop := StopAfter(init, keywords, n);
      assert m[..stop] == init[..stop];
    } else {
      assert |pre| == n;
      stop := |m| - 1;
      assert m[..stop] == init;
    }
  }

  /** "foo" occurs in "foo2" and not in "baz". */
  lemma FooKeywordCases()
    ensures Contains("foo2", "foo") && !Contains("baz", "foo")
  {
    assert "foo2"[..3] == "foo";
    assert "baz"[..3][0] != "foo"[0];
    assert !Contains("baz"[1..], "foo");
  }

  /** Filtering the entries after the offset keeps "foo2" and drops "baz". */
  lemma FooTailMatching(u3: Uuid, u4: Uuid)
    ensures Matching([Index("foo2", u3), Index("baz", u4)], Some("foo")) == [Index("foo2", u3)]
  {
    var foo2, baz := Index("foo2", u3), Index("baz", u4);
    FooKeywordCases();
    MatchingSnoc([], foo2, Some("foo"));
    MatchingSnoc([foo2], baz, Some("foo"));
    assert [foo2] + [baz] == [foo2, baz];
  }

  /**
   * The offset counts raw keys, not matches: over the keys
   * "foo1", "bar", "foo2", "baz" with keywords "foo" and start 2, the keys
   * "foo1" and "bar" are dropped and "foo2" is still returned.
   */
  lemma OffsetCountsRawKeys(u1: Uuid, u2: Uuid, u3: Uuid, u4: Uuid)
    ensures var m := [Index("foo1", u1), Index("bar", u2), Index("foo2", u3), Index("baz", u4)];
            Page(m, Some("foo"), 2, 20) == [Index("foo2", u3)]
  {
    var m := [Index("foo1", u1), Index("bar", u2), Index("foo2", u3), Index("baz", u4)];
    assert Skipped(2, |m|) == 2;
    assert m[2..] == [Index("foo2", u3), Index("baz", u4)];
    FooTailMatching(u3, u4);
  }
}
