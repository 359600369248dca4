/** `sorted` on strings, and lists kept sorted by name against dictionaries by name. */
module Names {

  /** The order of Python on strings, by code points. */
  predicate Less(a: string, b: string) {
    b != "" && (a == "" || a[0] < b[0] || (a[0] == b[0] && Less(a[1..], b[1..])))
  }

  /** The first character that differs decides; a text comes before those it starts. */
  lemma {:induction false} LessIff(a: string, b: string)
    ensures Less(a, b) <==> exists n :: 0 <= n <= |a| && n < |b| && a[..n] == b[..n] && (n == |a| || a[n] < b[n])
  {
    if b != "" {
      if a == "" {
        assert a[..0] == b[..0];
      } else if a[0] == b[0] {
        LessIff(a[1..], b[1..]);
        if n :| 0 <= n <= |a| && n < |b| && a[..n] == b[..n] && (n == |a| || a[n] < b[n]) {
          assert n > 0;
          assert a[1..][..n - 1] == a[..n][1..] && b[1..][..n - 1] == b[..n][1..];
        }
        if n :| 0 <= n <= |a[1..]| && n < |b[1..]| && a[1..][..n] == b[1..][..n]
                && (n == |a[1..]| || a[1..][n] < b[1..][n]) {
          assert a[..n + 1] == [a[0]] + a[1..][..n] && b[..n + 1] == [b[0]] + b[1..][..n];
        }
      } else {
        if a[0] < b[0] {
          assert a[..0] == b[..0];
        }
        forall n | 0 < n <= |a| && n < |b|
          ensures a[..n] != b[..n]
        {
          assert a[..n][0] != b[..n][0];
        }
      }
    }
  }

  lemma {:induction false} LessTotal(a: string, b: string)
    ensures a == b || Less(a, b) || Less(b, a)
  {
    if a != "" && b != "" && a[0] == b[0] {
      LessTotal(a[1..], b[1..]);
      assert a == [a[0]] + a[1..] && b == [b[0]] + b[1..];
    }
  }

  lemma {:induction false} LessAsymmetric(a: string, b: string)
    ensures Less(a, b) ==> !Less(b, a) && a != b
  {
    if a != "" && b != "" {
      LessAsymmetric(a[1..], b[1..]);
    }
  }

  lemma {:induction false} LessTransitive(a: string, b: string, c: string)
    requires Less(a, b) && Less(b, c)
    ensures Less(a, c)
  {
    if a != "" && a[0] == b[0] == c[0] {
      LessTransitive(a[1..], b[1..], c[1..]);
    }
  }

  ghost predicate IsLeast(m: string, s: set<string>) {
    m in s && forall x :: x in s && x != m ==> Less(m, x)
  }

  lemma {:induction false} LeastExists(s: set<string>)
    requires s != {}
    ensures exists m :: IsLeast(m, s)
    decreases |s|
  {
    var x :| x in s;
    var rest := s - {x};
    if rest == {} {
      assert s == {x};
      assert IsLeast(x, s);
    } else {
      LeastExists(rest);
      var m :| IsLeast(m, rest);
      LessTotal(x, m);
      if Less(x, m) {
        forall y | y in s && y != x
          ensures Less(x, y)
        {
          if y != m {
            LessTransitive(x, m, y);
          }
        }
        assert IsLeast(x, s);
      } else {
        assert IsLeast(m, s);
      }
    }
  }

  ghost predicate Increasing(names: seq<string>) {
    forall i, j :: 0 <= i < j < |names| ==> Less(names[i], names[j])
  }

  ghost function Elements(names: seq<string>): set<string> {
    set x | x in names
  }

  /** `sorted` of a set */
  ghost function Sorted(s: set<string>): (names: seq<string>)
    ensures Elements(names) == s
    ensures |names| == |s|
    decreases |s|
  {
    if s == {} then []
    else
      LeastExists(s);
      var m :| IsLeast(m, s);
      var rest := Sorted(s - {m});
      assert Elements([m] + rest) == {m} + Elements(rest);
      [m] + rest
  }

  lemma {:induction false} SortedIncreases(s: set<string>)
    ensures Increasing(Sorted(s))
    decreases |s|
  {
    if s != {} {
      LeastExists(s);
      var names := Sorted(s);
      var m := names[0];
      assert names[1..] == Sorted(s - {m});
      SortedIncreases(s - {m});
      forall i, j | 0 <= i < j < |names|
        ensures Less(names[i], names[j])
      {
        var later := names[1..];
        assert names[j] == later[j - 1] && later[j - 1] in Elements(later);
        assert i > 0 ==> names[i] == later[i - 1];
      }
    }
  }

  lemma HasElements(names: seq<string>)
    requires names != []
    ensures Elements(names) != {}
  {
    assert names[0] in Elements(names);
  }

  lemma {:induction false} IncreasingAreEqual(a: seq<string>, b: seq<string>)
    requires Increasing(a) && Increasing(b) && Elements(a) == Elements(b)
    ensures a == b
  {
    if a == [] {
      if b != [] {
        HasElements(b);
      }
    } else {
      assert a[0] in Elements(a);
      assert b != [];
      assert b[0] in Elements(b);
      var i :| 0 <= i < |a| && a[i] == b[0];
      var j :| 0 <= j < |b| && b[j] == a[0];
      LessAsymmetric(a[0], b[0]);
      assert a[0] == b[0];
      forall x
        ensures x in a[1..] <==> x in b[1..]
      {
        TailsKeep(a, x);
        TailsKeep(b, x);
        assert x in a <==> x in Elements(a);
        assert x in b <==> x in Elements(b);
      }
      assert Elements(a[1..]) == Elements(b[1..]);
      IncreasingAreEqual(a[1..], b[1..]);
      assert a == [a[0]] + a[1..] && b == [b[0]] + b[1..];
    }
  }

  lemma TailsKeep(a: seq<string>, x: string)
    requires a != [] && Increasing(a)
    ensures x in a[1..] <==> x in a && x != a[0]
  {
    if x in a[1..] {
      var k :| 0 <= k < |a[1..]| && a[1..][k] == x;
      LessAsymmetric(a[0], a[k + 1]);
    }
  }

  /** The only increasing list of its elements. */
  lemma IncreasingIsSorted(names: seq<string>)
    requires Increasing(names)
    ensures names == Sorted(Elements(names))
  {
    SortedIncreases(Elements(names));
    IncreasingAreEqual(names, Sorted(Elements(names)));
  }

  /** Inserts a name into increasing ones, as the loop of a sort does. */
  method Insert(names: seq<string>, name: string) returns (r: seq<string>)
    requires Increasing(names) && name !in names
    ensures Increasing(r) && Elements(r) == Elements(names) + {name}
  {
    var i := 0;
    while i < |names| && Less(names[i], name)
      invariant 0 <= i <= |names|
      invariant forall k :: 0 <= k < i ==> Less(names[k], name)
    {
      i := i + 1;
    }
    forall k | i <= k < |names|
      ensures Less(name, names[k])
    {
      LessTotal(name, names[i]);
      assert name != names[i];
      if k > i {
        LessTransitive(name, names[i], names[k]);
      }
    }
    r := names[..i] + [name] + names[i..];
    assert forall x :: x in r <==> x in names || x == name by {
      assert names == names[..i] + names[i..];
    }
  }

  method Sort(s: set<string>) returns (names: seq<string>)
    ensures names == Sorted(s)
  {
    names := [];
    var left := s;
    while left != {}
      invariant left <= s && Increasing(names) && Elements(names) == s - left
      decreases left
    {
      var x :| x in left;
      assert x in names ==> x in Elements(names);
      names := Insert(names, x);
      left := left - {x};
    }
    IncreasingIsSorted(names);
  }

  // ---- lists by name ----

  /** `{item.name: item for item in items}` */
  function ByName<T>(items: seq<T>, nameOf: T -> string): map<string, T> {
    if items == [] then map[]
    else
      var last := items[|items| - 1];
      ByName(items[..|items| - 1], nameOf)[nameOf(last) := last]
  }

  ghost predicate Keyed<T>(items: map<string, T>, nameOf: T -> string) {
    forall name :: name in items ==> nameOf(items[name]) == name
  }

  /** `items[name] for name in names` */
  function Pick<T>(items: map<string, T>, names: seq<string>): (r: seq<T>)
    requires forall i :: 0 <= i < |names| ==> names[i] in items
    ensures |r| == |names| && forall i :: 0 <= i < |names| ==> r[i] == items[names[i]]
  {
    seq(|names|, i requires 0 <= i < |names| => items[names[i]])
  }

  ghost function InOrder<T>(items: map<string, T>): (r: seq<T>)
    ensures |r| == |items|
  {
    var names := Sorted(items.Keys);
    assert forall i :: 0 <= i < |names| ==> names[i] in Elements(names);
    Pick(items, names)
  }

  ghost predicate IncreasingNames<T>(items: seq<T>, nameOf: T -> string) {
    forall i, j :: 0 <= i < j < |items| ==> Less(nameOf(items[i]), nameOf(items[j]))
  }

  lemma {:induction false} ByNameIs<T>(items: seq<T>, nameOf: T -> string)
    ensures Keyed(ByName(items, nameOf), nameOf)
    ensures forall name :: name in ByName(items, nameOf) <==> exists i :: 0 <= i < |items| && nameOf(items[i]) == name
    ensures forall name :: name in ByName(items, nameOf) ==> ByName(items, nameOf)[name] in items
  {
    if items != [] {
      var n := |items| - 1;
      var init := items[..n];
      ByNameIs(init, nameOf);
      assert forall i :: 0 <= i < n ==> init[i] == items[i];
      forall name
        ensures name in ByName(items, nameOf) <==> exists i :: 0 <= i < |items| && nameOf(items[i]) == name
      {
        if name in ByName(init, nameOf) {
          var i :| 0 <= i < |init| && nameOf(init[i]) == name;
          assert nameOf(items[i]) == name;
        }
      }
    }
  }

  lemma {:induction false} ByNameFinds<T>(items: seq<T>, nameOf: T -> string, i: nat)
    requires i < |items| && forall j, k :: 0 <= j < k < |items| ==> nameOf(items[j]) != nameOf(items[k])
    ensures nameOf(items[i]) in ByName(items, nameOf) && ByName(items, nameOf)[nameOf(items[i])] == items[i]
  {
    var n := |items| - 1;
    if i < n {
      ByNameFinds(items[..n], nameOf, i);
    }
  }

  lemma NamesOfInOrder<T>(items: map<string, T>, nameOf: T -> string)
    requires Keyed(items, nameOf)
    ensures IncreasingNames(InOrder(items), nameOf)
    ensures forall i :: 0 <= i < |InOrder(items)| ==> nameOf(InOrder(items)[i]) == Sorted(items.Keys)[i]
  {
    SortedIncreases(items.Keys);
    var names := Sorted(items.Keys);
    assert forall i :: 0 <= i < |names| ==> names[i] in Elements(names);
  }

  lemma ListedHas<T>(items: map<string, T>, nameOf: T -> string, name: string)
    requires Keyed(items, nameOf) && name in items
    ensures var found := ByName(InOrder(items), nameOf);
            name in found && found[name] == items[name]
  {
    var names := Sorted(items.Keys);
    assert name in Elements(names);
    var i :| 0 <= i < |names| && names[i] == name;
    NamesOfInOrder(items, nameOf);
    DistinctNames(InOrder(items), nameOf);
    ByNameFinds(InOrder(items), nameOf, i);
  }

  lemma ListedOnly<T>(items: map<string, T>, nameOf: T -> string, name: string)
    requires Keyed(items, nameOf) && name in ByName(InOrder(items), nameOf)
    ensures name in items
  {
    NamesOfInOrder(items, nameOf);
    ByNameIs(InOrder(items), nameOf);
    var i :| 0 <= i < |InOrder(items)| && nameOf(InOrder(items)[i]) == name;
    assert Sorted(items.Keys)[i] in Elements(Sorted(items.Keys));
  }

  /** A dictionary by name, listed in order, is that dictionary by name. */
  lemma ByNameOfInOrder<T>(items: map<string, T>, nameOf: T -> string)
    requires Keyed(items, nameOf)
    ensures ByName(InOrder(items), nameOf) == items
  {
    var found := ByName(InOrder(items), nameOf);
    forall name
      ensures name in found <==> name in items
      ensures name in items ==> name in found && found[name] == items[name]
    {
      if name in items {
        ListedHas(items, nameOf, name);
      }
      if name in found {
        ListedOnly(items, nameOf, name);
      }
    }
  }

  lemma NamesAreKeys<T>(items: seq<T>, nameOf: T -> string)
    requires IncreasingNames(items, nameOf)
    ensures var names := seq(|items|, i requires 0 <= i < |items| => nameOf(items[i]));
            names == Sorted(ByName(items, nameOf).Keys)
  {
    var found := ByName(items, nameOf);
    var names := seq(|items|, i requires 0 <= i < |items| => nameOf(items[i]));
    ByNameIs(items, nameOf);
    forall name
      ensures name in Elements(names) <==> name in found.Keys
    {
      assert name in Elements(names) <==> name in names;
      if name in found {
        var i :| 0 <= i < |items| && nameOf(items[i]) == name;
        assert names[i] == name;
      }
    }
    assert Elements(names) == found.Keys;
    IncreasingIsSorted(names);
  }

  /** A list with increasing names is its dictionary listed in order. */
  lemma InOrderOfByName<T>(items: seq<T>, nameOf: T -> string)
    requires IncreasingNames(items, nameOf)
    ensures InOrder(ByName(items, nameOf)) == items
  {
    NamesAreKeys(items, nameOf);
    var listed := InOrder(ByName(items, nameOf));
    forall i | 0 <= i < |items|
      ensures listed[i] == items[i]
    {
      DistinctNames(items, nameOf);
      ByNameFinds(items, nameOf, i);
    }
  }

  lemma DistinctNames<T>(items: seq<T>, nameOf: T -> string)
    requires IncreasingNames(items, nameOf)
    ensures forall j, k :: 0 <= j < k < |items| ==> nameOf(items[j]) != nameOf(items[k])
  {
    forall j, k | 0 <= j < k < |items|
      ensures nameOf(items[j]) != nameOf(items[k])
    {
      LessAsymmetric(nameOf(items[j]), nameOf(items[k]));
    }
  }
}
