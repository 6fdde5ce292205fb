/** Text as JavaScript sees it: sequences of UTF-16 code units, ordered by code unit. */
module Utf16 {

  type Unit = x: int | 0 <= x < 0x1_0000
  type Text = seq<Unit>

  /** The order of JavaScript's default `sort()` and of RFC 8785 section 3.2.3. */
  predicate Before(a: Text, b: Text) {
    && b != []
    && (a == [] || a[0] < b[0] || (a[0] == b[0] && Before(a[1..], b[1..])))
  }

  lemma {:induction false} BeforeTransitive(a: Text, b: Text, c: Text)
    requires Before(a, b) && Before(b, c)
    ensures Before(a, c)
  {
    if a != [] && a[0] == b[0] == c[0] {
      BeforeTransitive(a[1..], b[1..], c[1..]);
    }
  }

  lemma {:induction false} BeforeTotal(a: Text, b: Text)
    ensures Before(a, b) || Before(b, a) || a == b
    ensures !(Before(a, b) && Before(b, a))
    ensures !Before(a, a)
  {
    if a != [] && b != [] && a[0] == b[0] {
      BeforeTotal(a[1..], b[1..]);
      assert a == [a[0]] + a[1..] && b == [b[0]] + b[1..];
    }
    if a != [] {
      BeforeTotal(a[1..], a[1..]);
    }
  }

  /** Insertion of an entry into a key-ordered list, keeping equal keys in arrival order. */
  function InsertByKey<T>(e: (Text, T), s: seq<(Text, T)>): seq<(Text, T)> {
    if s == [] then [e]
    else if Before(s[0].0, e.0) then [s[0]] + InsertByKey(e, s[1..])
    else [e] + s
  }

  function SortByKey<T>(s: seq<(Text, T)>): seq<(Text, T)> {
    if s == [] then [] else InsertByKey(s[0], SortByKey(s[1..]))
  }

  ghost predicate DistinctKeys<T>(s: seq<(Text, T)>) {
    forall i, j :: 0 <= i < j < |s| ==> s[i].0 != s[j].0
  }

  ghost predicate SortedKeys<T>(s: seq<(Text, T)>) {
    forall i, j :: 0 <= i < j < |s| ==> Before(s[i].0, s[j].0)
  }

  lemma {:induction false} InsertByKeyContents<T>(e: (Text, T), s: seq<(Text, T)>)
    ensures multiset(InsertByKey(e, s)) == multiset{e} + multiset(s)
  {
    if s == [] {
    } else if Before(s[0].0, e.0) {
      InsertByKeyContents(e, s[1..]);
      assert s == [s[0]] + s[1..];
    }
  }

  lemma {:induction false} InsertByKeySorted<T>(e: (Text, T), s: seq<(Text, T)>)
    requires SortedKeys(s)
    requires forall i :: 0 <= i < |s| ==> s[i].0 != e.0
    ensures SortedKeys(InsertByKey(e, s))
  {
    if s == [] {
    } else if Before(s[0].0, e.0) {
      InsertByKeySorted(e, s[1..]);
      InsertByKeyContents(e, s[1..]);
      var t := InsertByKey(e, s[1..]);
      forall i | 0 <= i < |t| ensures Before(s[0].0, t[i].0) {
        assert t[i] in multiset(t);
        if t[i] != e {
          assert t[i] in multiset(s[1..]);
          var j :| 0 <= j < |s[1..]| && s[1..][j] == t[i];
          assert s[j + 1] == t[i];
        }
      }
    } else {
      BeforeTotal(s[0].0, e.0);
      forall i | 0 <= i < |s| ensures Before(e.0, s[i].0) {
        if i > 0 { BeforeTransitive(e.0, s[0].0, s[i].0); }
      }
    }
  }

  /** Sorting an object's entries keeps exactly the same entries and orders their keys strictly. */
  lemma {:induction false} SortByKeyCorrect<T>(s: seq<(Text, T)>)
    requires DistinctKeys(s)
    ensures SortedKeys(SortByKey(s))
    ensures multiset(SortByKey(s)) == multiset(s)
  {
    if s != [] {
      var t := SortByKey(s[1..]);
      SortByKeyCorrect(s[1..]);
      InsertByKeyContents(s[0], t);
      assert s == [s[0]] + s[1..];
      forall i | 0 <= i < |t| ensures t[i].0 != s[0].0 {
        assert t[i] in multiset(t);
        assert t[i] in multiset(s[1..]);
        var j :| 0 <= j < |s[1..]| && s[1..][j] == t[i];
        assert s[j + 1] == t[i];
      }
      InsertByKeySorted(s[0], t);
    }
  }

  lemma HeadIsFirst<T>(a: seq<(Text, T)>, x: (Text, T))
    requires SortedKeys(a) && x in multiset(a)
    ensures a != [] && (x == a[0] || Before(a[0].0, x.0))
  {
    var i :| 0 <= i < |a| && a[i] == x;
  }

  lemma TailContents<T>(a: seq<(Text, T)>)
    requires a != []
    ensures multiset(a[1..]) == multiset(a) - multiset{a[0]}
  {
    assert a == [a[0]] + a[1..];
  }

  /** A strictly ordered list is determined by its entries: any correct sort gives the same list. */
  lemma {:induction false} SortedUnique<T>(a: seq<(Text, T)>, b: seq<(Text, T)>)
    requires SortedKeys(a) && SortedKeys(b)
    requires multiset(a) == multiset(b)
    ensures a == b
  {
    assert |a| == |multiset(a)| == |multiset(b)| == |b|;
    if a != [] {
      assert a[0] in multiset(a) && b[0] in multiset(b);
      HeadIsFirst(a, b[0]);
      HeadIsFirst(b, a[0]);
      BeforeTotal(a[0].0, b[0].0);
      TailContents(a);
      TailContents(b);
      SortedUnique(a[1..], b[1..]);
      assert a == [a[0]] + a[1..] && b == [b[0]] + b[1..];
    }
  }

  // ---- The order, said without recursion ----

  /** The texts agree before position k, where a has the smaller unit. */
  predicate DiffersBelow(a: Text, b: Text, k: nat) {
    k < |a| && k < |b| && a[..k] == b[..k] && a[k] < b[k]
  }

  /** A proper prefix comes first; otherwise the smaller unit at the first difference decides. */
  lemma {:induction false} BeforeIsLexicographic(a: Text, b: Text)
    ensures Before(a, b) <==> (|a| < |b| && a == b[..|a|]) || exists k: nat :: DiffersBelow(a, b, k)
  {
    if a != [] && b != [] && a[0] == b[0] {
      BeforeIsLexicographic(a[1..], b[1..]);
      assert a == [a[0]] + a[1..] && b == [b[0]] + b[1..];
      if k: nat :| DiffersBelow(a[1..], b[1..], k) {
        assert a[..k + 1] == [a[0]] + a[1..][..k] && b[..k + 1] == [b[0]] + b[1..][..k];
        assert DiffersBelow(a, b, k + 1);
      }
      if k: nat :| DiffersBelow(a, b, k) {
        assert k > 0;
        assert a[1..][..k - 1] == a[..k][1..] && b[1..][..k - 1] == b[..k][1..];
        assert DiffersBelow(a[1..], b[1..], k - 1);
      }
      PrefixTail(a, b);
    } else if a != [] && b != [] {
      assert Before(a, b) ==> DiffersBelow(a, b, 0);
    }
  }

  lemma PrefixTail(a: Text, b: Text)
    requires a != [] && b != [] && a[0] == b[0]
    ensures |a| < |b| && a == b[..|a|] <==> |a[1..]| < |b[1..]| && a[1..] == b[1..][..|a[1..]|]
  {
    if |a| < |b| {
      assert b[..|a|] == [b[0]] + b[1..][..|a| - 1];
      assert a == [a[0]] + a[1..];
    }
  }
}
