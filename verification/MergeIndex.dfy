/**
 The range-add / range-maximum index behind merge validation.

 Counts are stored lazily: a range touches only the nodes of its canonical cover
 and nothing is pushed down.  `active` is the ghost list of ranges added and not
 yet removed; everything the two arrays hold is a function of it.
 */
module MergeIndex {

  const MAX_COLUMN := 16_384

  /** An inclusive interval of sheet columns. */
  datatype Columns = Columns(left: int, right: int)

  predicate Inside(inner: Columns, outer: Columns) {
    outer.left <= inner.left && inner.right <= outer.right
  }

  predicate OnSheet(r: Columns, columns: int) {
    1 <= r.left <= r.right <= columns
  }

  predicate Meet(a: Columns, b: Columns) {
    a.left <= b.right && b.left <= a.right
  }

  function LeftHalf(s: Columns): Columns {
    Columns(s.left, (s.left + s.right) / 2)
  }

  function RightHalf(s: Columns): Columns {
    Columns((s.left + s.right) / 2 + 1, s.right)
  }

  function Max(a: int, b: int): int {
    if a >= b then a else b
  }

  // ----- Counting active ranges -----

  function Indicator(b: bool): nat {
    if b then 1 else 0
  }

  ghost function CountIf(rs: seq<Columns>, p: Columns -> bool): nat {
    if rs == [] then 0 else CountIf(rs[..|rs| - 1], p) + Indicator(p(rs[|rs| - 1]))
  }

  lemma CountAppend(rs: seq<Columns>, r: Columns, p: Columns -> bool)
    ensures CountIf(rs + [r], p) == CountIf(rs, p) + Indicator(p(r))
  {
  }

  lemma {:induction false} CountRemove(rs: seq<Columns>, k: nat, p: Columns -> bool)
    requires k < |rs|
    ensures CountIf(rs, p) == CountIf(rs[..k] + rs[k + 1..], p) + Indicator(p(rs[k]))
  {
    var rest := rs[..k] + rs[k + 1..];
    if k == |rs| - 1 {
      assert rest == rs[..k];
    } else {
      var front := rs[..|rs| - 1];
      CountRemove(front, k, p);
      assert rest[..|rest| - 1] == front[..k] + front[k + 1..];
      assert rest[|rest| - 1] == rs[|rs| - 1];
    }
  }

  /** Ranges whose canonical cover uses the node for `s`: they contain `s` but not its parent. */
  ghost function Uses(s: Columns, parent: Columns): Columns -> bool {
    r => Inside(s, r) && !Inside(parent, r)
  }

  /** Ranges over one column that no node at or above `parent` accounts for. */
  ghost function OverBelow(column: int, parent: Columns): Columns -> bool {
    (r: Columns) => r.left <= column <= r.right && !Inside(parent, r)
  }

  ghost function Over(column: int): Columns -> bool {
    (r: Columns) => r.left <= column <= r.right
  }

  /** How many active ranges lie over one column. */
  ghost function Depth(active: seq<Columns>, column: int): nat {
    CountIf(active, Over(column))
  }

  /** A range over a column is accounted for at the node for `s`, above it, or below it. */
  lemma {:induction false} DepthSplits(active: seq<Columns>, column: int, s: Columns, parent: Columns)
    requires Inside(s, parent) && s.left <= column <= s.right
    ensures CountIf(active, OverBelow(column, parent))
         == CountIf(active, Uses(s, parent)) + CountIf(active, OverBelow(column, s))
  {
    if active != [] {
      DepthSplits(active[..|active| - 1], column, s, parent);
    }
  }

  lemma {:induction false} SingleColumnDepth(active: seq<Columns>, column: int)
    ensures CountIf(active, OverBelow(column, Columns(column, column))) == 0
  {
    if active != [] {
      SingleColumnDepth(active[..|active| - 1], column);
    }
  }

  /** One past the sheet on both sides: no range on the sheet contains it. */
  function Beyond(columns: int): Columns {
    Columns(0, columns + 1)
  }

  lemma {:induction false} DepthBelowRoot(active: seq<Columns>, column: int, columns: int)
    requires forall r :: r in active ==> OnSheet(r, columns)
    ensures CountIf(active, OverBelow(column, Beyond(columns))) == Depth(active, column)
  {
    if active != [] {
      DepthBelowRoot(active[..|active| - 1], column, columns);
      assert active[|active| - 1] in active;
    }
  }

  /** `after` is `active` with one `r` added or removed. */
  ghost predicate Changed(active: seq<Columns>, after: seq<Columns>, r: Columns, delta: int) {
    forall p: Columns -> bool :: CountIf(after, p) == CountIf(active, p) + if p(r) then delta else 0
  }

  lemma AddChanges(active: seq<Columns>, after: seq<Columns>, r: Columns, delta: int, k: nat)
    requires delta == 1 ==> after == active + [r]
    requires delta != 1 ==> delta == -1 && k < |active| && active[k] == r && after == active[..k] + active[k + 1..]
    ensures Changed(active, after, r, delta)
  {
    forall p: Columns -> bool
      ensures CountIf(after, p) == CountIf(active, p) + if p(r) then delta else 0
    {
      if delta == 1 { CountAppend(active, r, p); } else { CountRemove(active, k, p); }
    }
  }

  /** `m` is the largest number of active ranges over one column of `r`. */
  ghost predicate IsDeepest(active: seq<Columns>, r: Columns, m: int) {
    && (forall c :: r.left <= c <= r.right ==> Depth(active, c) <= m)
    && (exists c :: r.left <= c <= r.right && Depth(active, c) == m)
  }

  // ----- Node numbers -----

  /** `n` lies in the subtree of `top`. */
  ghost predicate Below(top: nat, n: nat) {
    n == top || (n > top && Below(top, n / 2))
  }

  /** Subtrees of siblings are disjoint, and within the parent's. */
  lemma {:induction false} SiblingsDisjoint(parent: nat, n: nat)
    requires parent >= 1
    ensures !(Below(2 * parent, n) && Below(2 * parent + 1, n))
    ensures Below(2 * parent, n) || Below(2 * parent + 1, n) ==> n > parent && Below(parent, n)
    decreases n
  {
    if n > 0 {
      SiblingsDisjoint(parent, n / 2);
    }
  }

  /** Every node index under node `n` for segment `s` is below `size`. */
  ghost predicate Fits(size: nat, n: nat, s: Columns)
    decreases s.right - s.left
  {
    && 1 <= n < size
    && s.left <= s.right
    && (s.left < s.right ==> Fits(size, 2 * n, LeftHalf(s)) && Fits(size, 2 * n + 1, RightHalf(s)))
  }

  ghost function Width(height: nat): nat {
    if height == 0 then 1 else 2 * Width(height - 1)
  }

  ghost function LastIndex(n: nat, height: nat): nat
    decreases height
  {
    if height == 0 then n else LastIndex(2 * n + 1, height - 1)
  }

  lemma {:induction false} LastIndexGrows(m: nat, n: nat, height: nat)
    requires m <= n
    ensures m <= LastIndex(m, height) <= LastIndex(n, height)
    decreases height
  {
    if height > 0 {
      LastIndexGrows(2 * m + 1, 2 * n + 1, height - 1);
    }
  }

  lemma {:induction false} PowerOfTwoFits(size: nat, n: nat, s: Columns, height: nat)
    requires n >= 1 && LastIndex(n, height) < size && s.right - s.left + 1 == Width(height)
    ensures Fits(size, n, s)
    decreases height
  {
    LastIndexGrows(n, n, height);
    if height > 0 {
      LastIndexGrows(2 * n, 2 * n + 1, height - 1);
      PowerOfTwoFits(size, 2 * n, LeftHalf(s), height - 1);
      PowerOfTwoFits(size, 2 * n + 1, RightHalf(s), height - 1);
    }
  }

  /** The arrays of four nodes per column are large enough: no index leaves them. */
  lemma SheetFits()
    ensures Fits(4 * MAX_COLUMN, 1, Columns(1, MAX_COLUMN))
  {
    assert Width(14) == MAX_COLUMN;
    assert LastIndex(1, 14) == 2 * MAX_COLUMN - 1;
    PowerOfTwoFits(4 * MAX_COLUMN, 1, Columns(1, MAX_COLUMN), 14);
  }

  // ----- Canonical covers -----

  /** The nodes at which the recursion for `r` stops: the canonical cover of `r` below `n`. */
  ghost function Cover(n: nat, s: Columns, r: Columns): set<nat>
    decreases s.right - s.left
  {
    if Inside(s, r) then {n}
    else if s.left >= s.right then {}
    else
      (if r.left <= LeftHalf(s).right then Cover(2 * n, LeftHalf(s), r) else {}) +
      (if r.right > LeftHalf(s).right then Cover(2 * n + 1, RightHalf(s), r) else {})
  }

  /** Ranges whose canonical cover on the whole sheet uses node `i`. */
  ghost function CoverUses(sheet: Columns, i: nat): Columns -> bool {
    r => i in Cover(1, sheet, r)
  }

  /** Ranges no node at or above `parent` absorbs and whose cover below `n` uses node `i`. */
  ghost function CoveredAt(n: nat, s: Columns, parent: Columns, i: nat): Columns -> bool {
    r => !Inside(parent, r) && i in Cover(n, s, r)
  }

  lemma {:induction false} CoverBelow(n: nat, s: Columns, r: Columns, i: nat)
    requires n >= 1 && i in Cover(n, s, r)
    ensures Below(n, i)
    decreases s.right - s.left
  {
    if !Inside(s, r) {
      if r.left <= LeftHalf(s).right && i in Cover(2 * n, LeftHalf(s), r) {
        CoverBelow(2 * n, LeftHalf(s), r, i);
      } else {
        CoverBelow(2 * n + 1, RightHalf(s), r, i);
      }
      SiblingsDisjoint(n, i);
    }
  }

  lemma {:induction false} CoverMisses(n: nat, s: Columns, r: Columns)
    requires !Meet(s, r) && s.left <= s.right
    ensures Cover(n, s, r) == {}
    decreases s.right - s.left
  {
    if s.left < s.right {
      CoverMisses(2 * n, LeftHalf(s), r);
      CoverMisses(2 * n + 1, RightHalf(s), r);
    }
  }

  /** A node below a child is in a cover exactly when the recursion passes `n` and stops there. */
  lemma CoverBranch(n: nat, s: Columns, r: Columns, i: nat)
    requires n >= 1 && s.left < s.right
    ensures Below(2 * n, i) ==> (i in Cover(n, s, r) <==> !Inside(s, r) && i in Cover(2 * n, LeftHalf(s), r))
    ensures Below(2 * n + 1, i) ==> (i in Cover(n, s, r) <==> !Inside(s, r) && i in Cover(2 * n + 1, RightHalf(s), r))
    ensures i == n ==> (i in Cover(n, s, r) <==> Inside(s, r))
  {
    SiblingsDisjoint(n, i);
    if i in Cover(2 * n, LeftHalf(s), r) { CoverBelow(2 * n, LeftHalf(s), r, i); }
    if i in Cover(2 * n + 1, RightHalf(s), r) { CoverBelow(2 * n + 1, RightHalf(s), r, i); }
    if r.left > LeftHalf(s).right { CoverMisses(2 * n, LeftHalf(s), r); }
    if r.right <= LeftHalf(s).right { CoverMisses(2 * n + 1, RightHalf(s), r); }
  }

  lemma {:induction false} CountSame(rs: seq<Columns>, p: Columns -> bool, q: Columns -> bool)
    requires forall r :: r in rs ==> p(r) == q(r)
    ensures CountIf(rs, p) == CountIf(rs, q)
  {
    if rs != [] {
      assert rs[|rs| - 1] in rs;
      CountSame(rs[..|rs| - 1], p, q);
    }
  }

  /** Node `i` is one the recursion from `n` can stop at. */
  ghost predicate IsNodeOf(n: nat, s: Columns, i: nat)
    decreases s.right - s.left
  {
    i == n || (s.left < s.right && (IsNodeOf(2 * n, LeftHalf(s), i) || IsNodeOf(2 * n + 1, RightHalf(s), i)))
  }

  lemma {:induction false} NodesBelow(n: nat, s: Columns, i: nat)
    requires n >= 1 && IsNodeOf(n, s, i)
    ensures Below(n, i)
    decreases s.right - s.left
  {
    if i != n {
      if IsNodeOf(2 * n, LeftHalf(s), i) {
        NodesBelow(2 * n, LeftHalf(s), i);
      } else {
        NodesBelow(2 * n + 1, RightHalf(s), i);
      }
      SiblingsDisjoint(n, i);
    }
  }

  // ----- The tree as a value -----

  function Get(values: seq<int>, i: nat): int {
    if i < |values| then values[i] else 0
  }

  function Put(values: seq<int>, i: nat, value: int): seq<int> {
    if i < |values| then values[i := value] else values
  }

  datatype Tree = Tree(maximum: seq<int>, lazy: seq<int>) {

    ghost predicate Holds(n: nat, s: Columns) {
      Fits(|maximum|, n, s) && |lazy| == |maximum|
    }

    ghost function Updated(n: nat, s: Columns, r: Columns, delta: int): (t: Tree)
      ensures |t.maximum| == |maximum| && |t.lazy| == |lazy|
      decreases s.right - s.left, 1
    {
      if Inside(s, r) || s.right <= s.left then
        Tree(Put(maximum, n, Get(maximum, n) + delta), Put(lazy, n, Get(lazy, n) + delta))
      else
        LeftUpdated(n, s, r, delta).RightUpdated(n, s, r, delta).Recomputed(n)
    }

    ghost function LeftUpdated(n: nat, s: Columns, r: Columns, delta: int): (t: Tree)
      requires s.left < s.right
      ensures |t.maximum| == |maximum| && |t.lazy| == |lazy|
      decreases s.right - s.left, 0
    {
      if r.left <= LeftHalf(s).right then Updated(2 * n, LeftHalf(s), r, delta) else this
    }

    ghost function RightUpdated(n: nat, s: Columns, r: Columns, delta: int): (t: Tree)
      requires s.left < s.right
      ensures |t.maximum| == |maximum| && |t.lazy| == |lazy|
      decreases s.right - s.left, 0
    {
      if r.right > LeftHalf(s).right then Updated(2 * n + 1, RightHalf(s), r, delta) else this
    }

    ghost function Recomputed(n: nat): (t: Tree) {
      this.(maximum := Put(maximum, n, Get(lazy, n) + Max(Get(maximum, 2 * n), Get(maximum, 2 * n + 1))))
    }

    ghost function Queried(n: nat, s: Columns, r: Columns): int
      decreases s.right - s.left, 1
    {
      if Inside(s, r) || s.right <= s.left then Get(maximum, n)
      else
        Get(lazy, n) + Combined(n, s, r)
    }

    /** What the two child queries contribute. */
    ghost function Combined(n: nat, s: Columns, r: Columns): int
      requires s.left < s.right
      decreases s.right - s.left, 0
    {
      var low := if r.left <= LeftHalf(s).right then Queried(2 * n, LeftHalf(s), r) else 0;
      if r.right > LeftHalf(s).right then Max(low, Queried(2 * n + 1, RightHalf(s), r)) else low
    }

    /** Below node `n` for `s`: counts are canonical-cover counts and maxima are up to date. */
    ghost predicate Represents(n: nat, s: Columns, parent: Columns, active: seq<Columns>)
      decreases s.right - s.left
    {
      && Get(lazy, n) == CountIf(active, Uses(s, parent))
      && (s.left >= s.right ==> Get(maximum, n) == Get(lazy, n))
      && (s.left < s.right ==>
            && Get(maximum, n) == Get(lazy, n) + Max(Get(maximum, 2 * n), Get(maximum, 2 * n + 1))
            && Represents(2 * n, LeftHalf(s), s, active)
            && Represents(2 * n + 1, RightHalf(s), s, active))
    }

    /** An update reaches only nodes below its start. */
    lemma {:induction false} UpdateFrame(n: nat, s: Columns, r: Columns, delta: int, i: nat)
      requires n >= 1 && !Below(n, i)
      ensures Get(Updated(n, s, r, delta).maximum, i) == Get(maximum, i)
      ensures Get(Updated(n, s, r, delta).lazy, i) == Get(lazy, i)
      decreases s.right - s.left
    {
      if !Inside(s, r) && s.left < s.right {
        SiblingsDisjoint(n, i);
        var t1 := LeftUpdated(n, s, r, delta);
        UpdateFrame(2 * n, LeftHalf(s), r, delta, i);
        t1.UpdateFrame(2 * n + 1, RightHalf(s), r, delta, i);
      }
    }

    ghost predicate SameBelow(t: Tree, n: nat) {
      forall i :: Below(n, i) ==> Get(t.maximum, i) == Get(maximum, i) && Get(t.lazy, i) == Get(lazy, i)
    }

    /** Updating one child's subtree leaves the sibling's alone. */
    lemma SiblingFrame(parent: nat, here: nat, there: nat, s: Columns, r: Columns, delta: int)
      requires parent >= 1
      requires (here == 2 * parent && there == 2 * parent + 1) || (here == 2 * parent + 1 && there == 2 * parent)
      ensures SameBelow(Updated(there, s, r, delta), here)
    {
      forall i | Below(here, i)
        ensures Get(Updated(there, s, r, delta).maximum, i) == Get(maximum, i)
        ensures Get(Updated(there, s, r, delta).lazy, i) == Get(lazy, i)
      {
        SiblingsDisjoint(parent, i);
        UpdateFrame(there, s, r, delta, i);
      }
    }

    lemma {:induction false} EmptyRepresents(n: nat, s: Columns, parent: Columns)
      requires forall i: nat :: Get(maximum, i) == 0 && Get(lazy, i) == 0
      ensures Represents(n, s, parent, [])
      decreases s.right - s.left
    {
      if s.left < s.right {
        EmptyRepresents(2 * n, LeftHalf(s), s);
        EmptyRepresents(2 * n + 1, RightHalf(s), s);
      }
    }

    /** What a subtree represents depends on its own nodes only. */
    lemma Carried(t: Tree, n: nat, s: Columns, parent: Columns, active: seq<Columns>)
      requires n >= 1 && SameBelow(t, n) && Represents(n, s, parent, active)
      ensures t.Represents(n, s, parent, active)
      decreases s.right - s.left
    {
      assert Below(n, n);
      if s.left < s.right {
        SameBelowChildren(t, n);
        Carried(t, 2 * n, LeftHalf(s), s, active);
        Carried(t, 2 * n + 1, RightHalf(s), s, active);
      }
    }

    lemma SameBelowChildren(t: Tree, n: nat)
      requires n >= 1 && SameBelow(t, n)
      ensures SameBelow(t, 2 * n) && SameBelow(t, 2 * n + 1)
      ensures Get(t.maximum, 2 * n) == Get(maximum, 2 * n) && Get(t.maximum, 2 * n + 1) == Get(maximum, 2 * n + 1)
    {
      forall i: nat ensures Below(2 * n, i) || Below(2 * n + 1, i) ==> Below(n, i) {
        SiblingsDisjoint(n, i);
      }
      assert Below(2 * n, 2 * n) && Below(2 * n + 1, 2 * n + 1);
    }

    /** A range that an ancestor absorbs, or that misses the segment, changes nothing below. */
    lemma {:induction false} Untouched(t: Tree, n: nat, s: Columns, parent: Columns,
                                       active: seq<Columns>, after: seq<Columns>, r: Columns, delta: int)
      requires n >= 1 && s.left <= s.right && Represents(n, s, parent, active) && SameBelow(t, n)
      requires Changed(active, after, r, delta)
      requires Inside(parent, r) || !Meet(s, r)
      requires Inside(s, parent)
      ensures t.Represents(n, s, parent, after)
      decreases s.right - s.left
    {
      assert !Uses(s, parent)(r);
      assert Below(n, n);
      if s.left < s.right {
        SameBelowChildren(t, n);
        Untouched(t, 2 * n, LeftHalf(s), s, active, after, r, delta);
        Untouched(t, 2 * n + 1, RightHalf(s), s, active, after, r, delta);
      }
    }

    /** An update of a range reached by the recursion re-establishes the whole subtree. */
    lemma {:induction false} UpdateRepresents(n: nat, s: Columns, parent: Columns,
                                              active: seq<Columns>, after: seq<Columns>, r: Columns, delta: int)
      requires Holds(n, s) && Represents(n, s, parent, active)
      requires Changed(active, after, r, delta)
      requires Inside(s, parent) && Meet(s, r) && !Inside(parent, r) && r.left <= r.right
      ensures Updated(n, s, r, delta).Represents(n, s, parent, after)
      decreases s.right - s.left, 1
    {
      var t := Updated(n, s, r, delta);
      if Inside(s, r) {
        assert Uses(s, parent)(r);
        if s.left < s.right {
          UntouchedChildren(t, n, s, active, after, r, delta);
        }
      } else {
        assert !Uses(s, parent)(r);
        UpdateChildren(n, s, parent, active, after, r, delta);
      }
    }

    lemma {:induction false} UpdateChildren(n: nat, s: Columns, parent: Columns,
                                            active: seq<Columns>, after: seq<Columns>, r: Columns, delta: int)
      requires Holds(n, s) && Represents(n, s, parent, active)
      requires Changed(active, after, r, delta)
      requires Meet(s, r) && !Inside(s, r) && s.left < s.right && r.left <= r.right
      ensures Get(Updated(n, s, r, delta).lazy, n) == Get(lazy, n)
      ensures Updated(n, s, r, delta).Represents(2 * n, LeftHalf(s), s, after)
      ensures Updated(n, s, r, delta).Represents(2 * n + 1, RightHalf(s), s, after)
      decreases s.right - s.left, 0
    {
      var t1 := LeftUpdated(n, s, r, delta);
      var t2 := t1.RightUpdated(n, s, r, delta);
      UpdateLeft(n, s, active, after, r, delta);
      UpdateRight(n, s, active, after, r, delta);
      AboveChildren(t2, t2.Recomputed(n), n, s, after);
      SiblingsDisjoint(n, n);
      UpdateFrame(2 * n, LeftHalf(s), r, delta, n);
      t1.UpdateFrame(2 * n + 1, RightHalf(s), r, delta, n);
    }

    lemma {:induction false} UpdateLeft(n: nat, s: Columns, active: seq<Columns>, after: seq<Columns>, r: Columns,
                                        delta: int)
      requires n >= 1 && s.left < s.right && r.left <= r.right && Meet(s, r) && !Inside(s, r)
      requires Holds(2 * n, LeftHalf(s)) && Represents(2 * n, LeftHalf(s), s, active)
      requires Changed(active, after, r, delta)
      ensures LeftUpdated(n, s, r, delta).RightUpdated(n, s, r, delta).Represents(2 * n, LeftHalf(s), s, after)
      decreases s.right - s.left, 0, 0
    {
      var t1 := LeftUpdated(n, s, r, delta);
      var t2 := t1.RightUpdated(n, s, r, delta);
      t1.SiblingFrame(n, 2 * n, 2 * n + 1, RightHalf(s), r, delta);
      if r.left <= LeftHalf(s).right {
        UpdateRepresents(2 * n, LeftHalf(s), s, active, after, r, delta);
        t1.Carried(t2, 2 * n, LeftHalf(s), s, after);
      } else {
        Untouched(t2, 2 * n, LeftHalf(s), s, active, after, r, delta);
      }
    }

    lemma {:induction false} UpdateRight(n: nat, s: Columns, active: seq<Columns>, after: seq<Columns>, r: Columns,
                                         delta: int)
      requires n >= 1 && s.left < s.right && r.left <= r.right && Meet(s, r) && !Inside(s, r)
      requires Holds(2 * n + 1, RightHalf(s)) && Represents(2 * n + 1, RightHalf(s), s, active)
      requires Changed(active, after, r, delta)
      ensures LeftUpdated(n, s, r, delta).RightUpdated(n, s, r, delta).Represents(2 * n + 1, RightHalf(s), s, after)
      decreases s.right - s.left, 0, 0
    {
      var t1 := LeftUpdated(n, s, r, delta);
      SiblingFrame(n, 2 * n + 1, 2 * n, LeftHalf(s), r, delta);
      if r.right > LeftHalf(s).right {
        Carried(t1, 2 * n + 1, RightHalf(s), s, active);
        t1.UpdateRepresents(2 * n + 1, RightHalf(s), s, active, after, r, delta);
      } else {
        Untouched(t1, 2 * n + 1, RightHalf(s), s, active, after, r, delta);
      }
    }

    /** Changing only node `n` itself leaves both subtrees under it alone. */
    static lemma AboveChildren(t: Tree, t': Tree, n: nat, s: Columns, active: seq<Columns>)
      requires n >= 1
      requires forall i: nat :: i != n ==> Get(t'.maximum, i) == Get(t.maximum, i) && Get(t'.lazy, i) == Get(t.lazy, i)
      ensures t.Represents(2 * n, LeftHalf(s), s, active) ==> t'.Represents(2 * n, LeftHalf(s), s, active)
      ensures t.Represents(2 * n + 1, RightHalf(s), s, active) ==> t'.Represents(2 * n + 1, RightHalf(s), s, active)
    {
      forall i: nat ensures Below(2 * n, i) || Below(2 * n + 1, i) ==> i != n {
        SiblingsDisjoint(n, i);
      }
      if t.Represents(2 * n, LeftHalf(s), s, active) {
        t.Carried(t', 2 * n, LeftHalf(s), s, active);
      }
      if t.Represents(2 * n + 1, RightHalf(s), s, active) {
        t.Carried(t', 2 * n + 1, RightHalf(s), s, active);
      }
    }

    lemma UntouchedChildren(t: Tree, n: nat, s: Columns, active: seq<Columns>, after: seq<Columns>, r: Columns,
                            delta: int)
      requires n >= 1 && s.left < s.right && Inside(s, r) && Changed(active, after, r, delta)
      requires Represents(2 * n, LeftHalf(s), s, active) && Represents(2 * n + 1, RightHalf(s), s, active)
      requires forall i: nat :: i != n ==> Get(t.maximum, i) == Get(maximum, i) && Get(t.lazy, i) == Get(lazy, i)
      ensures t.Represents(2 * n, LeftHalf(s), s, after) && t.Represents(2 * n + 1, RightHalf(s), s, after)
    {
      AboveChildren(this, t, n, s, active);
      t.Untouched(t, 2 * n, LeftHalf(s), s, active, after, r, delta);
      t.Untouched(t, 2 * n + 1, RightHalf(s), s, active, after, r, delta);
    }

    /** A lazy count is the number of active ranges whose canonical cover uses that node. */
    lemma {:induction false} LazyCountsCovers(n: nat, s: Columns, parent: Columns, active: seq<Columns>, i: nat)
      requires n >= 1 && Represents(n, s, parent, active) && Inside(s, parent) && IsNodeOf(n, s, i)
      ensures Get(lazy, i) == CountIf(active, CoveredAt(n, s, parent, i))
      decreases s.right - s.left
    {
      if s.left < s.right {
        forall r: Columns
          ensures CoveredAt(n, s, parent, n)(r) == Uses(s, parent)(r)
          ensures Below(2 * n, i) ==> CoveredAt(n, s, parent, i)(r) == CoveredAt(2 * n, LeftHalf(s), s, i)(r)
          ensures Below(2 * n + 1, i) ==> CoveredAt(n, s, parent, i)(r) == CoveredAt(2 * n + 1, RightHalf(s), s, i)(r)
        {
          CoverBranch(n, s, r, n);
          CoverBranch(n, s, r, i);
        }
      }
      if i == n {
        CountSame(active, CoveredAt(n, s, parent, n), Uses(s, parent));
      } else if IsNodeOf(2 * n, LeftHalf(s), i) {
        NodesBelow(2 * n, LeftHalf(s), i);
        LazyCountsCovers(2 * n, LeftHalf(s), s, active, i);
        CountSame(active, CoveredAt(n, s, parent, i), CoveredAt(2 * n, LeftHalf(s), s, i));
      } else {
        NodesBelow(2 * n + 1, RightHalf(s), i);
        LazyCountsCovers(2 * n + 1, RightHalf(s), s, active, i);
        CountSame(active, CoveredAt(n, s, parent, i), CoveredAt(2 * n + 1, RightHalf(s), s, i));
      }
    }

    /** No column of `s` has more active ranges accounted for below `parent` than the stored maximum ... */
    lemma {:induction false} NodeBound(n: nat, s: Columns, parent: Columns, active: seq<Columns>, column: int)
      requires Represents(n, s, parent, active) && Inside(s, parent) && s.left <= column <= s.right
      ensures CountIf(active, OverBelow(column, parent)) <= Get(maximum, n)
      decreases s.right - s.left
    {
      DepthSplits(active, column, s, parent);
      if s.left == s.right {
        SingleColumnDepth(active, column);
      } else if column <= LeftHalf(s).right {
        NodeBound(2 * n, LeftHalf(s), s, active, column);
      } else {
        NodeBound(2 * n + 1, RightHalf(s), s, active, column);
      }
    }

    /** ... and some column attains it. */
    lemma {:induction false} NodeAttained(n: nat, s: Columns, parent: Columns, active: seq<Columns>)
      returns (column: int)
      requires Represents(n, s, parent, active) && Inside(s, parent) && s.left <= s.right
      ensures s.left <= column <= s.right
      ensures CountIf(active, OverBelow(column, parent)) == Get(maximum, n)
      decreases s.right - s.left
    {
      if s.left == s.right {
        column := s.left;
        SingleColumnDepth(active, column);
        DepthSplits(active, column, s, parent);
      } else if Get(maximum, 2 * n) >= Get(maximum, 2 * n + 1) {
        column := NodeAttained(2 * n, LeftHalf(s), s, active);
        DepthSplits(active, column, s, parent);
      } else {
        column := NodeAttained(2 * n + 1, RightHalf(s), s, active);
        DepthSplits(active, column, s, parent);
      }
    }

    lemma {:induction false} QueryBound(n: nat, s: Columns, parent: Columns, active: seq<Columns>, r: Columns,
                                        column: int)
      requires Represents(n, s, parent, active) && Inside(s, parent)
      requires s.left <= column <= s.right && r.left <= column <= r.right
      ensures CountIf(active, OverBelow(column, parent)) <= Queried(n, s, r)
      decreases s.right - s.left
    {
      if Inside(s, r) || s.left == s.right {
        NodeBound(n, s, parent, active, column);
      } else {
        DepthSplits(active, column, s, parent);
        if column <= LeftHalf(s).right {
          QueryBound(2 * n, LeftHalf(s), s, active, r, column);
        } else {
          QueryBound(2 * n + 1, RightHalf(s), s, active, r, column);
        }
      }
    }

    /** The clamp at zero is harmless because counts are never negative. */
    lemma {:induction false} QueryAttained(n: nat, s: Columns, parent: Columns, active: seq<Columns>, r: Columns)
      returns (column: int)
      requires Represents(n, s, parent, active) && Inside(s, parent)
      requires Meet(s, r) && s.left <= s.right && r.left <= r.right
      ensures s.left <= column <= s.right && r.left <= column <= r.right
      ensures CountIf(active, OverBelow(column, parent)) == Queried(n, s, r)
      decreases s.right - s.left
    {
      if Inside(s, r) {
        column := NodeAttained(n, s, parent, active);
      } else {
        var low := 0;
        if r.left <= LeftHalf(s).right {
          column := QueryAttained(2 * n, LeftHalf(s), s, active, r);
          low := Queried(2 * n, LeftHalf(s), r);
        }
        if r.right > LeftHalf(s).right {
          var c := QueryAttained(2 * n + 1, RightHalf(s), s, active, r);
          if r.left > LeftHalf(s).right || Queried(2 * n + 1, RightHalf(s), r) > low {
            column := c;
          }
        }
        DepthSplits(active, column, s, parent);
      }
    }
  }

  // ----- The index object -----

  class MergeRangeIndex {
    const columns: int
    const maximum: array<int>
    const lazy: array<int>
    ghost var active: seq<Columns>

    ghost predicate Shape() {
      maximum != lazy && maximum.Length == lazy.Length == 4 * columns
    }

    ghost function Contents(): Tree
      reads maximum, lazy
    {
      Tree(maximum[..], lazy[..])
    }

    ghost predicate Valid()
      reads this, maximum, lazy
    {
      && Shape() && Fits(maximum.Length, 1, Columns(1, columns))
      && (forall r :: r in active ==> OnSheet(r, columns))
      && Contents().Represents(1, Columns(1, columns), Beyond(columns), active)
    }

    /** An empty index; the column count is `MAX_COLUMN`, whose tree fits by `SheetFits`. */
    constructor (columns: int)
      requires columns >= 0 && Fits(4 * columns, 1, Columns(1, columns))
      ensures Valid() && active == [] && this.columns == columns
      ensures fresh(maximum) && fresh(lazy)
    {
      this.columns := columns;
      maximum := new int[4 * columns](_ => 0);
      lazy := new int[4 * columns](_ => 0);
      active := [];
      new;
      Contents().EmptyRepresents(1, Columns(1, columns), Beyond(columns));
    }

    /** Adds a range (`delta` is 1) or removes the active range numbered `k` (`delta` is -1). */
    method Add(left: int, right: int, delta: int, ghost k: nat)
      requires Valid() && OnSheet(Columns(left, right), columns)
      requires delta == 1 || (delta == -1 && k < |active| && active[k] == Columns(left, right))
      modifies this, maximum, lazy
      ensures Valid()
      ensures active == if delta == 1 then old(active) + [Columns(left, right)]
                        else old(active[..k] + active[k + 1..])
    {
      ghost var r, t, before := Columns(left, right), Contents(), active;
      Update(1, 1, columns, left, right, delta);
      active := if delta == 1 then active + [r] else active[..k] + active[k + 1..];
      AddChanges(before, active, r, delta, k);
      t.UpdateRepresents(1, Columns(1, columns), Beyond(columns), before, active, r, delta);
    }

    /** The largest number of active ranges over one column of the queried interval. */
    method Maximum(left: int, right: int) returns (m: int)
      requires Valid() && OnSheet(Columns(left, right), columns)
      ensures IsDeepest(active, Columns(left, right), m)
    {
      m := Query(1, 1, columns, left, right);
      ghost var sheet, r, t := Columns(1, columns), Columns(left, right), Contents();
      forall c | left <= c <= right ensures Depth(active, c) <= m {
        t.QueryBound(1, sheet, Beyond(columns), active, r, c);
        DepthBelowRoot(active, c, columns);
      }
      ghost var c := t.QueryAttained(1, sheet, Beyond(columns), active, r);
      DepthBelowRoot(active, c, columns);
      assert Depth(active, c) == m;
    }

    /** `lazy[i]` is the number of active ranges whose canonical cover uses node `i`. */
    lemma LazyMeaning(i: nat)
      requires Valid() && IsNodeOf(1, Columns(1, columns), i) && i < lazy.Length
      ensures lazy[i] == CountIf(active, CoverUses(Columns(1, columns), i))
    {
      var sheet, parent := Columns(1, columns), Beyond(columns);
      Contents().LazyCountsCovers(1, sheet, parent, active, i);
      CountSame(active, CoveredAt(1, sheet, parent, i), CoverUses(sheet, i));
    }

    method Update(node: nat, start: int, end: int, left: int, right: int, delta: int)
      requires Shape() && Fits(maximum.Length, node, Columns(start, end))
      requires left <= right && Meet(Columns(start, end), Columns(left, right))
      modifies maximum, lazy
      ensures Contents() == old(Contents()).Updated(node, Columns(start, end), Columns(left, right), delta)
      decreases end - start, 1
    {
      if left <= start && end <= right {
        maximum[node] := maximum[node] + delta;
        lazy[node] := lazy[node] + delta;
        return;
      }
      UpdateBelow(node, start, end, left, right, delta);
      maximum[node] := lazy[node] + Max(maximum[node * 2], maximum[node * 2 + 1]);
    }

    /** The two recursive calls of an update whose range does not cover the whole segment. */
    method UpdateBelow(node: nat, start: int, end: int, left: int, right: int, delta: int)
      requires Shape() && start < end
      requires Fits(maximum.Length, node * 2, LeftHalf(Columns(start, end)))
      requires Fits(maximum.Length, node * 2 + 1, RightHalf(Columns(start, end)))
      requires left <= right && Meet(Columns(start, end), Columns(left, right))
      modifies maximum, lazy
      ensures Contents() == old(Contents()).LeftUpdated(node, Columns(start, end), Columns(left, right), delta)
                                           .RightUpdated(node, Columns(start, end), Columns(left, right), delta)
      decreases end - start, 0
    {
      var middle := (start + end) / 2;
      ghost var s, r, t := Columns(start, end), Columns(left, right), Contents();
      if left <= middle {
        Update(node * 2, start, middle, left, right, delta);
      }
      assert Contents() == t.LeftUpdated(node, s, r, delta);
      ghost var t1 := Contents();
      if right > middle {
        Update(node * 2 + 1, middle + 1, end, left, right, delta);
      }
      assert Contents() == t1.RightUpdated(node, s, r, delta);
    }

    method Query(node: nat, start: int, end: int, left: int, right: int) returns (m: int)
      requires Shape() && Fits(maximum.Length, node, Columns(start, end))
      requires left <= right && Meet(Columns(start, end), Columns(left, right))
      ensures m == Contents().Queried(node, Columns(start, end), Columns(left, right))
      decreases end - start
    {
      if left <= start && end <= right {
        return maximum[node];
      }
      var middle := (start + end) / 2;
      var result := 0;
      if left <= middle {
        result := Query(node * 2, start, middle, left, right);
      }
      if right > middle {
        var other := Query(node * 2 + 1, middle + 1, end, left, right);
        result := Max(result, other);
      }
      assert result == Contents().Combined(node, Columns(start, end), Columns(left, right));
      m := lazy[node] + result;
    }
  }
}
