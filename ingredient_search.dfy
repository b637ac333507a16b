/** IngredientViewSet.get_queryset in api/views.py: the catalog, narrowed to
    the names that start with the `name` query parameter (ignoring case) when
    that parameter is non-empty, ordered by name. */
module IngredientSearch {
  import opened Text
  import opened Tables
  import opened Models

  /** order_by('name'): code-point lexicographic order on names. */
  predicate NameLe(a: string, b: string)
    decreases |a|
  {
    a == [] || (b != [] && (a[0] < b[0] || (a[0] == b[0] && NameLe(a[1..], b[1..]))))
  }

  lemma {:induction false} NameLeTotal(a: string, b: string)
    ensures NameLe(a, b) || NameLe(b, a)
    decreases |a|
  {
    if a != [] && b != [] && a[0] == b[0] {
      NameLeTotal(a[1..], b[1..]);
    }
  }

  lemma {:induction false} NameLeTransitive(a: string, b: string, c: string)
    requires NameLe(a, b) && NameLe(b, c)
    ensures NameLe(a, c)
    decreases |a|
  {
    if a != [] && b != [] && c != [] && a[0] == b[0] && b[0] == c[0] {
      NameLeTransitive(a[1..], b[1..], c[1..]);
    }
  }

  predicate SortedByName(s: seq<Ingredient>) {
    forall i, j :: 0 <= i < j < |s| ==> NameLe(s[i].name, s[j].name)
  }

  /** x placed before the first ingredient whose name it does not follow. */
  function Insert(s: seq<Ingredient>, x: Ingredient): seq<Ingredient>
    decreases |s|
  {
    if s == [] then [x]
    else if NameLe(x.name, s[0].name) then [x] + s
    else [s[0]] + Insert(s[1..], x)
  }

  /** Insert adds x and keeps every other ingredient. */
  lemma {:induction false} InsertPermutes(s: seq<Ingredient>, x: Ingredient)
    ensures multiset(Insert(s, x)) == multiset(s) + multiset{x}
    decreases |s|
  {
    if s != [] && !NameLe(x.name, s[0].name) {
      InsertPermutes(s[1..], x);
      assert s == [s[0]] + s[1..];
    }
  }

  /** Every ingredient after the first of a sorted list follows the first. */
  lemma SortedHead(s: seq<Ingredient>)
    requires SortedByName(s) && s != []
    ensures SortedByName(s[1..])
    ensures forall j :: 0 <= j < |s[1..]| ==> NameLe(s[0].name, s[1..][j].name)
  {
    var tail := s[1..];
    forall i, j | 0 <= i < j < |tail| ensures NameLe(tail[i].name, tail[j].name) {
      assert tail[i] == s[i + 1] && tail[j] == s[j + 1];
    }
  }

  /** Putting h in front of a sorted list it precedes keeps it sorted. */
  lemma ConsSorted(h: Ingredient, rest: seq<Ingredient>)
    requires SortedByName(rest)
    requires forall j :: 0 <= j < |rest| ==> NameLe(h.name, rest[j].name)
    ensures SortedByName([h] + rest)
  {
    var r := [h] + rest;
    forall i, j | 0 <= i < j < |r| ensures NameLe(r[i].name, r[j].name) {
      assert r[j] == rest[j - 1];
      if i > 0 {
        assert r[i] == rest[i - 1];
      }
    }
  }

  /** Insert keeps a sorted list sorted. */
  lemma {:induction false} InsertSorted(s: seq<Ingredient>, x: Ingredient)
    requires SortedByName(s)
    ensures SortedByName(Insert(s, x))
    decreases |s|
  {
    if s == [] {
    } else if NameLe(x.name, s[0].name) {
      SortedHead(s);
      forall j | 0 <= j < |s| ensures NameLe(x.name, s[j].name) {
        if j > 0 {
          assert s[j] == s[1..][j - 1];
          NameLeTransitive(x.name, s[0].name, s[j].name);
        }
      }
      ConsSorted(x, s);
    } else {
      var tail := s[1..];
      SortedHead(s);
      InsertSorted(tail, x);
      InsertPermutes(tail, x);
      NameLeTotal(x.name, s[0].name);
      var rest := Insert(tail, x);
      forall j | 0 <= j < |rest| ensures NameLe(s[0].name, rest[j].name) {
        assert rest[j] in multiset(rest);
        if rest[j] != x {
          assert rest[j] in multiset(tail);
          var m :| 0 <= m < |tail| && tail[m] == rest[j];
        }
      }
      ConsSorted(s[0], rest);
    }
  }

  /** order_by('name'): insertion sort on names. */
  function SortByName(s: seq<Ingredient>): seq<Ingredient>
    decreases |s|
  {
    if s == [] then [] else Insert(SortByName(s[..|s| - 1]), s[|s| - 1])
  }

  /** Sorting keeps every ingredient, as often as it occurs. */
  lemma {:induction false} SortByNamePermutes(s: seq<Ingredient>)
    ensures multiset(SortByName(s)) == multiset(s)
    decreases |s|
  {
    if s != [] {
      SortByNamePermutes(s[..|s| - 1]);
      InsertPermutes(SortByName(s[..|s| - 1]), s[|s| - 1]);
      assert s == s[..|s| - 1] + [s[|s| - 1]];
    }
  }

  /** The sorted list is ordered by name. */
  lemma {:induction false} SortByNameSorted(s: seq<Ingredient>)
    ensures SortedByName(SortByName(s))
    decreases |s|
  {
    if s != [] {
      SortByNameSorted(s[..|s| - 1]);
      InsertSorted(SortByName(s[..|s| - 1]), s[|s| - 1]);
    }
  }

  /** get_queryset: filter(name__istartswith=name) when name is given and
      non-empty, then order_by('name'). The result is ordered by name and
      holds the matching catalog entries and nothing else; without a query
      (or with an empty one) it is a reordering of the whole catalog. */
  function SearchIngredients(catalog: seq<Ingredient>, name: Option<string>): (r: seq<Ingredient>)
    ensures SortedByName(r)
    ensures forall x :: x in r <==> x in catalog && (name.Some? && name.value != "" ==> IStartsWith(x.name, name.value))
    ensures (name.None? || name.value == "") ==> multiset(r) == multiset(catalog)
  {
    var matching :=
      if name.Some? && name.value != "" then Keep(catalog, (x: Ingredient) => IStartsWith(x.name, name.value))
      else catalog;
    SortByNamePermutes(matching);
    SortByNameSorted(matching);
    SameMembers(SortByName(matching), matching);
    SortByName(matching)
  }

  /** Two sequences with the same multiset have the same members. */
  lemma SameMembers(a: seq<Ingredient>, b: seq<Ingredient>)
    requires multiset(a) == multiset(b)
    ensures forall x :: x in a <==> x in b
  {
    forall x ensures x in a <==> x in b {
      assert x in a <==> x in multiset(a);
      assert x in b <==> x in multiset(b);
    }
  }

  /** Each catalog entry appears at most once in the result. */
  lemma SearchNoDuplicates(catalog: seq<Ingredient>, name: Option<string>)
    requires NoDuplicates(catalog)
    ensures NoDuplicates(SearchIngredients(catalog, name))
  {
    var matching :=
      if name.Some? && name.value != "" then Keep(catalog, (x: Ingredient) => IStartsWith(x.name, name.value))
      else catalog;
    if name.Some? && name.value != "" {
      KeepNoDuplicates(catalog, (x: Ingredient) => IStartsWith(x.name, name.value));
    }
    SortByNamePermutes(matching);
    PermutationNoDuplicates(matching, SortByName(matching));
  }

  /** A permutation of a sequence without duplicates has none either. */
  lemma PermutationNoDuplicates(s: seq<Ingredient>, r: seq<Ingredient>)
    requires NoDuplicates(s) && multiset(r) == multiset(s)
    ensures NoDuplicates(r)
  {
    forall x | x in multiset(s) ensures multiset(s)[x] == 1 {
      CountInDistinct(s, x);
    }
    forall i, j | 0 <= i < j < |r| ensures r[i] != r[j] {
      assert r == r[..i] + [r[i]] + r[i + 1..j] + [r[j]] + r[j + 1..];
      assert multiset(r)[r[i]] >= 1 + if r[j] == r[i] then 1 else 0;
    }
  }

  lemma {:induction false} CountInDistinct(s: seq<Ingredient>, x: Ingredient)
    requires NoDuplicates(s) && x in s
    ensures multiset(s)[x] == 1
    decreases |s|
  {
    var init := s[..|s| - 1];
    var last := s[|s| - 1];
    assert s == init + [last];
    assert NoDuplicates(init) by {
      forall i, j | 0 <= i < j < |init| ensures init[i] != init[j] {
        assert init[i] == s[i] && init[j] == s[j];
      }
    }
    assert last !in init by {
      forall k | 0 <= k < |init| ensures init[k] != last {
        assert init[k] == s[k];
      }
    }
    if x == last {
      assert multiset(init)[x] == 0;
    } else {
      CountInDistinct(init, x);
    }
  }
}
