/** The byte order of strings and sorting by a string key, as the importer uses them to fix an order. */
module StringOrder {

  predicate Less(a: string, b: string) {
    b != [] && (a == [] || a[0] < b[0] || (a[0] == b[0] && Less(a[1..], b[1..])))
  }

  lemma {:induction false} LessIsStrict(a: string, b: string)
    ensures !(Less(a, b) && Less(b, a))
    ensures a != b ==> Less(a, b) || Less(b, a)
    ensures a == b ==> !Less(a, b)
  {
    if a != [] && b != [] && a[0] == b[0] {
      LessIsStrict(a[1..], b[1..]);
      assert a == [a[0]] + a[1..] && b == [b[0]] + b[1..];
    }
  }

  lemma {:induction false} LessIsTransitive(a: string, b: string, c: string)
    requires Less(a, b) && Less(b, c)
    ensures Less(a, c)
  {
    if a != [] && a[0] == b[0] && b[0] == c[0] {
      LessIsTransitive(a[1..], b[1..], c[1..]);
    }
  }

  /** No element has a smaller key than one before it. */
  ghost predicate SortedBy<T(!new)>(s: seq<T>, key: T -> string) {
    forall i, j | 0 <= i < j < |s| :: !Less(key(s[j]), key(s[i]))
  }

  function Insert<T>(x: T, s: seq<T>, key: T -> string): seq<T> {
    if s == [] then [x]
    else if Less(key(s[0]), key(x)) then [s[0]] + Insert(x, s[1..], key)
    else [x] + s
  }

  function Sort<T>(s: seq<T>, key: T -> string): seq<T> {
    if s == [] then [] else Insert(s[0], Sort(s[1..], key), key)
  }

  lemma {:induction false} InsertAdds<T(!new)>(x: T, s: seq<T>, key: T -> string)
    ensures multiset(Insert(x, s, key)) == multiset(s) + multiset{x}
  {
    if s != [] {
      assert s == [s[0]] + s[1..];
      InsertAdds(x, s[1..], key);
    }
  }

  ghost predicate NoneBelow<T(!new)>(least: string, s: seq<T>, key: T -> string) {
    forall y | y in s :: !Less(key(y), least)
  }

  lemma {:induction false} InsertSorted<T(!new)>(x: T, s: seq<T>, key: T -> string)
    requires SortedBy(s, key)
    ensures SortedBy(Insert(x, s, key), key)
  {
    if s != [] {
      var rest := Insert(x, s[1..], key);
      if Less(key(s[0]), key(x)) {
        InsertSorted(x, s[1..], key);
        InsertAdds(x, s[1..], key);
        LessIsStrict(key(s[0]), key(x));
        forall y | y in rest
          ensures !Less(key(y), key(s[0]))
        {
          assert y in multiset(rest);
          assert y in s[1..] || y == x;
        }
      } else {
        forall y | y in s
          ensures !Less(key(y), key(x))
        {
          FirstIsLeast(s, y, key);
          NotLessTransitive(key(x), key(s[0]), key(y));
        }
      }
    }
  }

  lemma NotLessTransitive(a: string, b: string, c: string)
    requires !Less(b, a) && !Less(c, b)
    ensures !Less(c, a)
  {
  }

  lemma {:induction false} SortSorts<T(!new)>(s: seq<T>, key: T -> string)
    ensures SortedBy(Sort(s, key), key)
    ensures multiset(Sort(s, key)) == multiset(s)
    ensures |Sort(s, key)| == |s|
  {
    if s != [] {
      SortSorts(s[1..], key);
      InsertSorted(s[0], Sort(s[1..], key), key);
      InsertAdds(s[0], Sort(s[1..], key), key);
      assert s == [s[0]] + s[1..];
    }
    assert |multiset(s)| == |s| && |multiset(Sort(s, key))| == |Sort(s, key)|;
  }

  ghost predicate KeysTellApart<T(!new)>(s: seq<T>, key: T -> string) {
    forall x, y | x in s && y in s && key(x) == key(y) :: x == y
  }

  lemma FirstIsLeast<T(!new)>(s: seq<T>, x: T, key: T -> string)
    requires SortedBy(s, key) && x in multiset(s)
    ensures s != [] && !Less(key(x), key(s[0]))
  {
    var i :| 0 <= i < |s| && s[i] == x;
    LessIsStrict(key(x), key(s[0]));
  }

  lemma SameFirst<T(!new)>(s: seq<T>, t: seq<T>, key: T -> string)
    requires SortedBy(s, key) && SortedBy(t, key) && multiset(s) == multiset(t) && KeysTellApart(s, key)
    requires s != [] && t != []
    ensures s[0] == t[0]
  {
    assert s[0] in multiset(t) && t[0] in multiset(s);
    FirstIsLeast(s, t[0], key);
    FirstIsLeast(t, s[0], key);
    LessIsStrict(key(s[0]), key(t[0]));
    assert s[0] in s && t[0] in s;
  }

  lemma RestOf<T(!new)>(s: seq<T>, key: T -> string)
    requires s != []
    ensures s == [s[0]] + s[1..] && multiset(s[1..]) == multiset(s) - multiset{s[0]}
    ensures SortedBy(s, key) ==> SortedBy(s[1..], key)
    ensures KeysTellApart(s, key) ==> KeysTellApart(s[1..], key)
  {
  }

  /** A multiset has one sorted listing when equal keys mean equal elements. */
  lemma {:induction false} SortedListingIsUnique<T(!new)>(s: seq<T>, t: seq<T>, key: T -> string)
    requires SortedBy(s, key) && SortedBy(t, key) && multiset(s) == multiset(t) && KeysTellApart(s, key)
    ensures s == t
  {
    assert |s| == |multiset(s)| == |multiset(t)| == |t|;
    if s != [] {
      SameFirst(s, t, key);
      RestOf(s, key);
      RestOf(t, key);
      SortedListingIsUnique(s[1..], t[1..], key);
    }
  }

  /** Sorting forgets the order of its input. */
  lemma SortOfPermutation<T(!new)>(s: seq<T>, t: seq<T>, key: T -> string)
    requires multiset(s) == multiset(t) && KeysTellApart(s, key)
    ensures Sort(s, key) == Sort(t, key)
  {
    SortSorts(s, key);
    SortSorts(t, key);
    forall x | x in Sort(s, key)
      ensures x in s
    {
      assert x in multiset(Sort(s, key));
    }
    SortedListingIsUnique(Sort(s, key), Sort(t, key), key);
  }
}
