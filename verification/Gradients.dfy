/** Named tensors, the order in which peers list their names, and flattening. */
module Gradients {
  import opened Sums
  import opened Sorting

  /** A dense tensor: `data` is the row-major content, one value for each index of `shape`. */
  datatype Tensor = Tensor(shape: seq<nat>, data: seq<real>)

  type Gradient = map<string, Tensor>

  function Numel(shape: seq<nat>): nat {
    if shape == [] then 1 else shape[0] * Numel(shape[1..])
  }

  predicate WellFormed(g: Gradient) {
    forall name | name in g :: |g[name].data| == Numel(g[name].shape)
  }

  /** `g` offers every tensor of `first`, with as many elements: what flattening and adding them needs. */
  predicate Covers(first: Gradient, g: Gradient) {
    && WellFormed(g)
    && forall name | name in first :: name in g && Numel(g[name].shape) == Numel(first[name].shape)
  }

  // --- The order of names: code points compared lexicographically ---

  predicate StringLe(a: string, b: string) {
    a == [] || (b != [] && (a[0] < b[0] || (a[0] == b[0] && StringLe(a[1..], b[1..]))))
  }

  lemma {:induction false} StringLeTotal(a: string, b: string)
    ensures StringLe(a, b) || StringLe(b, a)
    ensures StringLe(a, b) && StringLe(b, a) ==> a == b
  {
    if a == [] || b == [] {
    } else {
      StringLeTotal(a[1..], b[1..]);
      assert a == [a[0]] + a[1..] && b == [b[0]] + b[1..];
    }
  }

  lemma {:induction false} StringLeTransitive(a: string, b: string, c: string)
    requires StringLe(a, b) && StringLe(b, c)
    ensures StringLe(a, c)
  {
    if a == [] || a[0] < b[0] || b[0] < c[0] {
    } else {
      StringLeTransitive(a[1..], b[1..], c[1..]);
    }
  }

  /** Names compare by their first difference, and a name comes before what it begins. */
  lemma {:induction false} StringLeIs(a: string, b: string, i: nat)
    requires i <= |a| && i <= |b| && a[..i] == b[..i]
    requires i < |a| && i < |b| ==> a[i] != b[i]
    ensures StringLe(a, b) <==> i == |a| || (i < |b| && a[i] < b[i])
  {
    if i > 0 {
      assert a[..i][0] == a[0] && b[..i][0] == b[0] && a[1..][..i - 1] == a[..i][1..] && b[1..][..i - 1] == b[..i][1..];
      StringLeIs(a[1..], b[1..], i - 1);
    }
  }

  predicate IsLeast(names: set<string>, least: string) {
    least in names && forall other | other in names :: StringLe(least, other)
  }

  lemma LesserIsLeast(names: set<string>, x: string, y: string, least: string)
    requires x in names && IsLeast(names - {x}, y)
    requires least == (if StringLe(x, y) then x else y)
    ensures IsLeast(names, least)
  {
    StringLeTotal(x, y);
    StringLeTotal(x, x);
    forall other | other in names - {x} && least == x ensures StringLe(x, other) {
      StringLeTransitive(x, y, other);
    }
  }

  lemma {:induction false} LeastName(names: set<string>)
    requires names != {}
    ensures exists least :: IsLeast(names, least)
    decreases |names|
  {
    var x :| x in names;
    if names == {x} {
      StringLeTotal(x, x);
      assert IsLeast(names, x);
    } else {
      LeastName(names - {x});
      var y :| IsLeast(names - {x}, y);
      LesserIsLeast(names, x, y, if StringLe(x, y) then x else y);
    }
  }

  lemma StringLeAntisymmetric()
    ensures forall x, y | StringLe(x, y) && StringLe(y, x) :: x == y
  {
    forall x, y | StringLe(x, y) && StringLe(y, x) ensures x == y { StringLeTotal(x, y); }
  }

  /** `sorted(names)`: the one ascending list of a set of names. */
  function SortedNames(names: set<string>): (r: seq<string>)
    ensures forall name :: name in r <==> name in names
    decreases |names|
  {
    if names == {} then []
    else
      LeastName(names);
      StringLeAntisymmetric();
      var least :| IsLeast(names, least);
      [least] + SortedNames(names - {least})
  }

  /** The list is duplicate-free, ascending, and as long as the set is large. */
  lemma {:induction false} SortedNamesFacts(names: set<string>)
    ensures Distinct(SortedNames(names)) && |SortedNames(names)| == |names|
    ensures forall i, j | 0 <= i < j < |SortedNames(names)| :: StringLe(SortedNames(names)[i], SortedNames(names)[j])
    decreases |names|
  {
    if names == {} {
    } else {
      var r := SortedNames(names);
      LeastName(names);
      StringLeAntisymmetric();
      var least :| IsLeast(names, least);
      assert r == [least] + SortedNames(names - {least});
      SortedNamesFacts(names - {least});
    }
  }

  lemma SingleName(name: string)
    ensures SortedNames({name}) == [name]
  {
    SortedNamesFacts({name});
    assert SortedNames({name})[0] in {name};
  }

  // --- Concatenation ---

  function Concat<T>(parts: seq<seq<T>>): seq<T> {
    if parts == [] then [] else parts[0] + Concat(parts[1..])
  }

  /** Where part `j` starts in the concatenation. */
  function Offset<T>(parts: seq<seq<T>>, j: nat): nat
    requires j <= |parts|
  {
    if j == 0 then 0 else |parts[0]| + Offset(parts[1..], j - 1)
  }

  lemma {:induction false} OffsetStep<T>(parts: seq<seq<T>>, j: nat)
    requires j < |parts|
    ensures Offset(parts, j + 1) == Offset(parts, j) + |parts[j]|
  {
    if j == 0 {
    } else {
      OffsetStep(parts[1..], j - 1);
    }
  }

  lemma {:induction false} ConcatSlice<T>(parts: seq<seq<T>>, j: nat)
    requires j < |parts|
    ensures Offset(parts, j) + |parts[j]| <= |Concat(parts)|
    ensures Concat(parts)[Offset(parts, j)..Offset(parts, j) + |parts[j]|] == parts[j]
  {
    if j == 0 {
      assert Concat(parts)[..|parts[0]|] == parts[0];
    } else {
      ConcatSlice(parts[1..], j - 1);
      var o := Offset(parts[1..], j - 1);
      var n := |parts[j]|;
      assert Concat(parts)[|parts[0]| + o..|parts[0]| + o + n] == Concat(parts[1..])[o..o + n];
    }
  }

  lemma {:induction false} ConcatAppend<T>(a: seq<seq<T>>, b: seq<seq<T>>)
    ensures Concat(a + b) == Concat(a) + Concat(b)
  {
    if a == [] {
      assert a + b == b;
    } else {
      assert (a + b)[1..] == a[1..] + b;
      ConcatAppend(a[1..], b);
    }
  }

  function SizeSum(sizes: seq<nat>): nat {
    if sizes == [] then 0 else sizes[0] + SizeSum(sizes[1..])
  }

  lemma {:induction false} OffsetWithin<T>(parts: seq<seq<T>>, sizes: seq<nat>, j: nat)
    requires |parts| == |sizes| && j <= |parts|
    requires forall i | 0 <= i < |parts| :: |parts[i]| == sizes[i]
    ensures Offset(parts, j) == SizeSum(sizes[..j])
    decreases j
  {
    if j == 0 {
    } else {
      OffsetWithin(parts[1..], sizes[1..], j - 1);
      assert sizes[..j][1..] == sizes[1..][..j - 1];
    }
  }

  /** The part and the position in it that hold element `k` of a concatenation, from the sizes alone. */
  function Locate(sizes: seq<nat>, k: nat): (r: (nat, nat))
    requires k < SizeSum(sizes)
    ensures r.0 < |sizes| && r.1 < sizes[r.0]
  {
    if k < sizes[0] then (0, k)
    else var (c, o) := Locate(sizes[1..], k - sizes[0]); (c + 1, o)
  }

  lemma {:induction false} ConcatAt<T>(parts: seq<seq<T>>, sizes: seq<nat>, k: nat)
    requires |parts| == |sizes|
    requires forall i | 0 <= i < |parts| :: |parts[i]| == sizes[i]
    requires k < SizeSum(sizes)
    ensures k < |Concat(parts)|
    ensures var (c, o) := Locate(sizes, k); Concat(parts)[k] == parts[c][o]
  {
    if k < sizes[0] {
    } else {
      ConcatAt(parts[1..], sizes[1..], k - sizes[0]);
    }
  }

  lemma {:induction false} ConcatLength<T>(parts: seq<seq<T>>, sizes: seq<nat>)
    requires |parts| == |sizes|
    requires forall i | 0 <= i < |parts| :: |parts[i]| == sizes[i]
    ensures |Concat(parts)| == SizeSum(sizes)
  {
    if parts == [] {
    } else {
      ConcatLength(parts[1..], sizes[1..]);
    }
  }

  // --- Flattening a gradient in name order ---

  function Parts(g: Gradient, names: seq<string>): (r: seq<seq<real>>)
    requires forall name | name in names :: name in g
    ensures |r| == |names|
  {
    seq(|names|, i requires 0 <= i < |names| => g[names[i]].data)
  }

  function Flatten(g: Gradient, names: seq<string>): seq<real>
    requires forall name | name in names :: name in g
  {
    Concat(Parts(g, names))
  }

  function Sizes(g: Gradient, names: seq<string>): (r: seq<nat>)
    requires forall name | name in names :: name in g
    ensures |r| == |names|
  {
    seq(|names|, i requires 0 <= i < |names| => Numel(g[names[i]].shape))
  }

  // --- The mean of several gradients: what every aggregation without attackers should return ---

  function Column(all: seq<Gradient>, name: string, k: nat): (r: seq<real>)
    requires forall i | 0 <= i < |all| :: name in all[i] && k < |all[i][name].data|
    ensures |r| == |all|
  {
    seq(|all|, i requires 0 <= i < |all| => all[i][name].data[k])
  }

  /** All the gradients offer the tensors of the first one, with as many elements each. */
  predicate Stackable(all: seq<Gradient>) {
    |all| > 0 && forall i | 0 <= i < |all| :: Covers(all[0], all[i])
  }

  lemma StackableColumn(all: seq<Gradient>, name: string)
    requires Stackable(all) && name in all[0]
    ensures forall i | 0 <= i < |all| :: name in all[i] && |all[i][name].data| == Numel(all[0][name].shape)
  {
  }

  function MeanTensor(all: seq<Gradient>, name: string): (r: Tensor)
    requires Stackable(all) && name in all[0]
    ensures |r.data| == Numel(r.shape)
  {
    StackableColumn(all, name);
    var size := Numel(all[0][name].shape);
    Tensor(all[0][name].shape, seq(size, k requires 0 <= k < size => Mean(Column(all, name, k))))
  }

  /** Coordinate by coordinate, the arithmetic mean over all the gradients. */
  function MeanGradient(all: seq<Gradient>): (r: Gradient)
    requires Stackable(all)
    ensures WellFormed(r)
  {
    map name | name in all[0] :: MeanTensor(all, name)
  }

  // --- Gradients of one layout ---

  predicate Fits(layout: Gradient, g: Gradient) {
    Covers(layout, g) && g.Keys == layout.Keys && forall name | name in layout :: g[name].shape == layout[name].shape
  }

  /** All gradients name the same tensors with the same shapes, and at least one tensor. */
  predicate AllFit(layout: Gradient, all: seq<Gradient>) {
    layout != map[] && WellFormed(layout) && forall i | 0 <= i < |all| :: Fits(layout, all[i])
  }

  // --- Selecting some of the gradients ---

  predicate Below(members: seq<nat>, n: nat) {
    forall g | g in members :: g < n
  }

  function Pick(all: seq<Gradient>, members: seq<nat>): (r: seq<Gradient>)
    requires Below(members, |all|)
    ensures |r| == |members|
    ensures forall i | 0 <= i < |members| :: members[i] in members && r[i] == all[members[i]]
  {
    seq(|members|, i requires 0 <= i < |members| => assert members[i] in members; all[members[i]])
  }

  lemma PickFits(layout: Gradient, all: seq<Gradient>, members: seq<nat>)
    requires AllFit(layout, all) && members != [] && Below(members, |all|)
    ensures Stackable(Pick(all, members)) && Pick(all, members)[0] != map[]
    ensures Fits(layout, MeanGradient(Pick(all, members)))
  {
    var picked := Pick(all, members);
    forall i | 0 <= i < |picked| ensures Fits(layout, picked[i]) {
      assert members[i] in members;
    }
  }
}
