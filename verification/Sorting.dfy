/** sort.Strings and sort.Slice by a string key, and why their result is unique when keys are. */
module Sorting {
  import opened Text

  /** Strictly increasing keys: sorted, and no key twice. */
  ghost predicate StrictlySorted<T(!new)>(xs: seq<T>, key: T -> string) {
    forall i, j | 0 <= i < j < |xs| :: Less(key(xs[i]), key(xs[j]))
  }

  ghost predicate DistinctKeys<T(!new)>(xs: seq<T>, key: T -> string) {
    forall i, j | 0 <= i < j < |xs| :: key(xs[i]) != key(xs[j])
  }

  function InsertBy<T>(x: T, xs: seq<T>, key: T -> string): seq<T> {
    if xs == [] || Less(key(x), key(xs[0])) then [x] + xs else [xs[0]] + InsertBy(x, xs[1..], key)
  }

  /** The sorted rearrangement of xs. */
  function SortBy<T>(xs: seq<T>, key: T -> string): seq<T> {
    if xs == [] then [] else InsertBy(xs[0], SortBy(xs[1..], key), key)
  }

  lemma {:induction false} InsertBySame<T>(x: T, xs: seq<T>, key: T -> string)
    ensures multiset(InsertBy(x, xs, key)) == multiset(xs) + multiset{x}
  {
    if xs == [] || Less(key(x), key(xs[0])) {
    } else {
      InsertBySame(x, xs[1..], key);
      assert xs == [xs[0]] + xs[1..];
    }
  }

  /** Sorting neither adds nor loses an element. */
  lemma {:induction false} SortBySame<T>(xs: seq<T>, key: T -> string)
    ensures multiset(SortBy(xs, key)) == multiset(xs) && |SortBy(xs, key)| == |xs|
  {
    if xs != [] {
      SortBySame(xs[1..], key);
      InsertBySame(xs[0], SortBy(xs[1..], key), key);
      assert xs == [xs[0]] + xs[1..];
      assert |SortBy(xs, key)| == |multiset(SortBy(xs, key))| == |multiset(xs)| == |xs|;
    }
  }

  lemma SortByElements<T(!new)>(xs: seq<T>, key: T -> string)
    ensures forall t :: t in SortBy(xs, key) <==> t in xs
  {
    SortBySame(xs, key);
    forall t ensures t in SortBy(xs, key) <==> t in xs {
      assert t in multiset(SortBy(xs, key)) <==> t in multiset(xs);
    }
  }

  lemma {:induction false} InsertBySorted<T(!new)>(x: T, xs: seq<T>, key: T -> string)
    requires StrictlySorted(xs, key)
    requires forall y | y in xs :: key(y) != key(x)
    ensures StrictlySorted(InsertBy(x, xs, key), key)
  {
    if xs == [] {
    } else if Less(key(x), key(xs[0])) {
      forall i | 0 <= i < |xs| ensures Less(key(x), key(xs[i])) {
        if i > 0 { LessTransitive(key(x), key(xs[0]), key(xs[i])); }
      }
    } else {
      LessTrichotomy(key(x), key(xs[0]));
      var rest := InsertBy(x, xs[1..], key);
      InsertBySorted(x, xs[1..], key);
      InsertBySame(x, xs[1..], key);
      forall j | 0 <= j < |rest| ensures Less(key(xs[0]), key(rest[j])) {
        assert rest[j] in multiset(rest);
        assert rest[j] == x || rest[j] in xs[1..];
      }
    }
  }

  /** With distinct keys the result is strictly increasing. */
  lemma {:induction false} SortBySorted<T(!new)>(xs: seq<T>, key: T -> string)
    requires DistinctKeys(xs, key)
    ensures StrictlySorted(SortBy(xs, key), key)
  {
    if xs != [] {
      SortBySorted(xs[1..], key);
      SortBySame(xs[1..], key);
      var rest := SortBy(xs[1..], key);
      forall y | y in rest ensures key(y) != key(xs[0]) {
        assert y in multiset(rest);
        assert y in xs[1..];
      }
      InsertBySorted(xs[0], rest, key);
    }
  }

  lemma HasMember<T(!new)>(xs: seq<T>)
    ensures xs == [] || exists t :: t in xs
  {
    if xs != [] {
      assert xs[0] in xs;
    }
  }

  /** A strictly increasing sequence is determined by its elements. */
  lemma {:induction false} StrictlySortedUnique<T(!new)>(xs: seq<T>, ys: seq<T>, key: T -> string)
    requires StrictlySorted(xs, key) && StrictlySorted(ys, key)
    requires forall t :: t in xs <==> t in ys
    ensures xs == ys
  {
    if xs == [] {
      HasMember(ys);
    } else {
      assert xs[0] in ys && ys[0] in xs;
      LessTrichotomy(key(xs[0]), key(ys[0]));
      assert xs[0] == ys[0];
      forall t ensures t in xs[1..] <==> t in ys[1..] {
        LessTrichotomy(key(xs[0]), key(xs[0]));
        assert t in xs[1..] ==> t != xs[0] && t in xs;
        assert t in ys[1..] ==> t != ys[0] && t in ys;
      }
      StrictlySortedUnique(xs[1..], ys[1..], key);
    }
  }

  /** Sorting a permutation gives the same sequence, provided the keys are distinct. */
  lemma SortByPermutation<T(!new)>(xs: seq<T>, ys: seq<T>, key: T -> string)
    requires DistinctKeys(xs, key) && DistinctKeys(ys, key)
    requires forall t :: t in xs <==> t in ys
    ensures SortBy(xs, key) == SortBy(ys, key)
  {
    SortBySorted(xs, key);
    SortBySorted(ys, key);
    SortByElements(xs, key);
    SortByElements(ys, key);
    StrictlySortedUnique(SortBy(xs, key), SortBy(ys, key), key);
  }

  // ---------- Strings themselves ----------

  function Itself(s: string): string { s }

  function SortStrings(xs: seq<string>): seq<string> {
    SortBy(xs, Itself)
  }

  lemma {:induction false} StrictlySortedIsFixed(xs: seq<string>)
    requires StrictlySorted(xs, Itself)
    ensures SortStrings(xs) == xs
  {
    forall i, j | 0 <= i < j < |xs| ensures xs[i] != xs[j] {
      assert Less(Itself(xs[i]), Itself(xs[j]));
      LessTrichotomy(xs[i], xs[i]);
    }
    SortBySorted(xs, Itself);
    SortByElements(xs, Itself);
    StrictlySortedUnique(SortStrings(xs), xs, Itself);
  }

  /** The elements of a set in increasing order: a directory listing, or a map's sorted keys. */
  ghost function Listing(s: set<string>): (xs: seq<string>)
    ensures StrictlySorted(xs, Itself)
    ensures forall x :: x in xs <==> x in s
  {
    if s == {} then []
    else
      var x :| x in s;
      var rest := Listing(s - {x});
      InsertBySorted(x, rest, Itself);
      InsertBySame(x, rest, Itself);
      var xs := InsertBy(x, rest, Itself);
      assert forall y :: y in xs <==> y in multiset(xs);
      xs
  }

  /** Collecting a set's elements in any order and sorting them gives its listing. */
  method SortedElements(s: set<string>) returns (xs: seq<string>)
    ensures xs == Listing(s)
  {
    var left, gathered := s, [];
    while left != {}
      invariant forall x :: x in gathered <==> x in s - left
      invariant left <= s
      invariant DistinctKeys(gathered, Itself)
      decreases left
    {
      var x :| x in left;
      forall i | 0 <= i < |gathered| ensures Itself(gathered[i]) != Itself(x) {
        assert gathered[i] in gathered;
      }
      left, gathered := left - {x}, gathered + [x];
    }
    SortBySorted(gathered, Itself);
    SortByElements(gathered, Itself);
    xs := SortStrings(gathered);
    StrictlySortedUnique(xs, Listing(s), Itself);
  }
}
