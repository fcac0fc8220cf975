/**
 Guide Layout: the numbers an arrangement of channels comes to (`numbers_for`). A channel keeps its
 number unless it was moved, has none, or would come out of order; then it takes the next one up.
 */
module GuideLayout {
  import opened ByteStrings

  type Existing = map<nat, Option<real>>

  /** `existing.get(id)` */
  function Mine(existing: Existing, id: nat): Option<real> {
    if id in existing then existing[id] else None
  }

  /** Whether a channel gives up its own number, if any. */
  predicate TakesItsPlace(existing: Existing, moved: Option<nat>, id: nat) {
    Some(id) == moved || Mine(existing, id).None?
  }

  function Others(existing: Existing, moved: Option<nat>): set<real> {
    set id | id in existing && existing[id].Some? && Some(id) != moved :: existing[id].value
  }

  /** The first number of the group: the least there is without the moved channel, else its own, else 1. */
  ghost predicate IsBase(existing: Existing, moved: Option<nat>, base: real) {
    var others := Others(existing, moved);
    if others != {} then base in others && forall x :: x in others ==> base <= x
    else if moved.Some? && Mine(existing, moved.value).Some? && Mine(existing, moved.value).value != 0.0 then
      base == Mine(existing, moved.value).value
    else base == 1.0
  }

  function Wanted(existing: Existing, moved: Option<nat>, base: real, last: Option<real>, id: nat): real {
    var mine := Mine(existing, id);
    var takes := TakesItsPlace(existing, moved, id);
    if last.None? then (if takes then base else mine.value)
    else if takes || mine.value <= last.value then last.value + 1.0
    else mine.value
  }

  /** The numbers along the order. */
  function Placed(order: seq<nat>, existing: Existing, moved: Option<nat>, base: real): (p: seq<real>)
    ensures |p| == |order|
  {
    if order == [] then []
    else
      var n := |order| - 1;
      var before := Placed(order[..n], existing, moved, base);
      before + [Wanted(existing, moved, base, if n == 0 then None else Some(before[n - 1]), order[n])]
  }

  /** The dictionary the numbers are filled into: a channel listed twice has the later one. */
  function Filled(order: seq<nat>, numbers: seq<real>): map<nat, real>
    requires |order| == |numbers|
  {
    if order == [] then map[]
    else
      var n := |order| - 1;
      Filled(order[..n], numbers[..n])[order[n] := numbers[n]]
  }

  method FirstNumber(existing: Existing, moved: Option<nat>) returns (base: real)
    ensures IsBase(existing, moved, base)
  {
    var least: Option<real> := None;
    var todo := existing.Keys;
    while todo != {}
      invariant todo <= existing.Keys
      invariant least.None? ==> forall id :: id in existing.Keys - todo ==> existing[id].None? || Some(id) == moved
      invariant least.Some? ==> least.value in Others(existing, moved)
      invariant least.Some? ==> forall id :: id in existing.Keys - todo && existing[id].Some? && Some(id) != moved ==> least.value <= existing[id].value
      decreases todo
    {
      var id :| id in todo;
      todo := todo - {id};
      if existing[id].Some? && Some(id) != moved && (least.None? || existing[id].value < least.value) {
        least := existing[id];
      }
    }
    if least.Some? {
      return least.value;
    }
    if moved.Some? && Mine(existing, moved.value).Some? && Mine(existing, moved.value).value != 0.0 {
      return Mine(existing, moved.value).value;
    }
    return 1.0;
  }

  method NumbersFor(order: seq<nat>, existing: Existing, moved: Option<nat>) returns (numbers: map<nat, real>)
    ensures exists base :: IsBase(existing, moved, base) && numbers == Filled(order, Placed(order, existing, moved, base))
  {
    var base := FirstNumber(existing, moved);
    numbers := map[];
    var last: Option<real> := None;
    for n := 0 to |order|
      invariant last == if n == 0 then None else Some(Placed(order[..n], existing, moved, base)[n - 1])
      invariant numbers == Filled(order[..n], Placed(order[..n], existing, moved, base))
    {
      var id := order[n];
      var mine := Mine(existing, id);
      var takes := Some(id) == moved || mine.None?;
      var wanted := base;
      if last.None? {
        wanted := if takes then base else mine.value;
      } else if takes || mine.value <= last.value {
        wanted := last.value + 1.0;
      } else {
        wanted := mine.value;
      }
      assert wanted == Wanted(existing, moved, base, last, id);
      OneMore(order, n, existing, moved, base, last);
      numbers := numbers[id := wanted];
      last := Some(wanted);
    }
    assert order[..|order|] == order;
  }

  lemma OneMore(order: seq<nat>, n: nat, existing: Existing, moved: Option<nat>, base: real, last: Option<real>)
    requires n < |order|
    requires last == if n == 0 then None else Some(Placed(order[..n], existing, moved, base)[n - 1])
    ensures var p, q := Placed(order[..n], existing, moved, base), Placed(order[..n + 1], existing, moved, base);
            var wanted := Wanted(existing, moved, base, last, order[n]);
            q[n] == wanted && Filled(order[..n + 1], q) == Filled(order[..n], p)[order[n] := wanted]
  {
    var q := Placed(order[..n + 1], existing, moved, base);
    assert order[..n + 1][..n] == order[..n];
    assert q[..n] == Placed(order[..n], existing, moved, base);
  }

  /** Without repeats, every channel in the order has the number of its place, and no other channel has one. */
  lemma {:induction false} FilledAt(order: seq<nat>, numbers: seq<real>)
    requires |order| == |numbers| && forall i, j :: 0 <= i < j < |order| ==> order[i] != order[j]
    ensures forall i :: 0 <= i < |order| ==> order[i] in Filled(order, numbers) && Filled(order, numbers)[order[i]] == numbers[i]
    ensures forall id :: id in Filled(order, numbers) ==> id in order
  {
    if order != [] {
      var n := |order| - 1;
      FilledAt(order[..n], numbers[..n]);
      assert forall i :: 0 <= i < n ==> order[..n][i] == order[i] && numbers[..n][i] == numbers[i];
    }
  }

  // ----- what the arrangement keeps

  /** The place of a channel depends only on what comes before it. */
  lemma {:induction false} PlacedPrefix(order: seq<nat>, existing: Existing, moved: Option<nat>, base: real, n: nat)
    requires n <= |order|
    ensures Placed(order[..n], existing, moved, base) == Placed(order, existing, moved, base)[..n]
    decreases |order|
  {
    if n < |order| {
      var m := |order| - 1;
      PlacedPrefix(order[..m], existing, moved, base, n);
      assert order[..m][..n] == order[..n];
    } else {
      assert order[..n] == order;
    }
  }

  lemma PlacedAt(order: seq<nat>, existing: Existing, moved: Option<nat>, base: real, i: nat)
    requires i < |order|
    ensures var p := Placed(order, existing, moved, base);
            p[i] == Wanted(existing, moved, base, if i == 0 then None else Some(p[i - 1]), order[i])
  {
    PlacedPrefix(order, existing, moved, base, i + 1);
    PlacedPrefix(order, existing, moved, base, i);
    assert order[..i + 1][..i] == order[..i];
  }

  /** Strictly ascending, and no channel that keeps its place is lowered or moved without need. */
  lemma {:induction false} PlacedInOrder(order: seq<nat>, existing: Existing, moved: Option<nat>, base: real, i: nat, j: nat)
    requires i < j < |order|
    ensures Placed(order, existing, moved, base)[i] < Placed(order, existing, moved, base)[j]
    decreases j
  {
    PlacedAt(order, existing, moved, base, j);
    if i < j - 1 {
      PlacedInOrder(order, existing, moved, base, i, j - 1);
    }
  }

  predicate Keeps(existing: Existing, moved: Option<nat>, id: nat) {
    !TakesItsPlace(existing, moved, id)
  }

  lemma NeverLowered(order: seq<nat>, existing: Existing, moved: Option<nat>, base: real, i: nat)
    requires i < |order| && Keeps(existing, moved, order[i])
    ensures Placed(order, existing, moved, base)[i] >= Mine(existing, order[i]).value
  {
    PlacedAt(order, existing, moved, base, i);
  }

  /** A channel other than the moved one, with this number. */
  predicate HasNumber(existing: Existing, moved: Option<nat>, id: nat, x: real) {
    id in existing && existing[id] == Some(x) && moved != Some(id)
  }

  /**
   The first channel keeps its number, unless it is the moved one or has none: then it takes the
   first number of the group, the least any other channel has.
   */
  lemma TheFirstOne(order: seq<nat>, existing: Existing, moved: Option<nat>, base: real)
    requires order != [] && IsBase(existing, moved, base)
    ensures var first, place := order[0], Placed(order, existing, moved, base)[0];
            if moved != Some(first) && Mine(existing, first).Some? then place == Mine(existing, first).value
            else if exists id, x :: HasNumber(existing, moved, id, x) then
              && (exists id :: HasNumber(existing, moved, id, place))
              && (forall id, x :: HasNumber(existing, moved, id, x) ==> place <= x)
            else if moved.Some? && Mine(existing, moved.value).Some? && Mine(existing, moved.value).value != 0.0 then
              Mine(existing, moved.value) == Some(place)
            else place == 1.0
  {
    PlacedAt(order, existing, moved, base, 0);
    var others := Others(existing, moved);
    forall id, x | HasNumber(existing, moved, id, x) ensures x in others {
      assert existing[id].value in others;
    }
    forall x | x in others ensures exists id :: HasNumber(existing, moved, id, x) {
      var id :| id in existing && existing[id].Some? && Some(id) != moved && existing[id].value == x;
      assert HasNumber(existing, moved, id, x);
    }
  }

  /** Any other channel keeps its number if that is above the one before it, and otherwise, or if it is moved or has none, takes the next one up. */
  lemma MovedOnlyAsFarAsItHasTo(order: seq<nat>, existing: Existing, moved: Option<nat>, base: real, i: nat)
    requires 0 < i < |order|
    ensures var p, mine := Placed(order, existing, moved, base), Mine(existing, order[i]);
            p[i] == if moved != Some(order[i]) && mine.Some? && mine.value > p[i - 1] then mine.value else p[i - 1] + 1.0
  {
    PlacedAt(order, existing, moved, base, i);
  }

  predicate IsInt(x: real) {
    x == x.Floor as real
  }

  predicate AllInts(existing: Existing) {
    forall id :: id in existing && existing[id].Some? ==> IsInt(existing[id].value)
  }

  lemma IntNext(a: real)
    requires IsInt(a)
    ensures IsInt(a + 1.0)
  {
    var m := a.Floor;
    assert (m + 1) as real == a + 1.0;
  }

  lemma IntGap(a: real, b: real)
    requires IsInt(a) && IsInt(b) && a < b
    ensures a + 1.0 <= b
  {
    var m, n := a.Floor, b.Floor;
    assert a == m as real && b == n as real;
    assert m < n;
    assert (m + 1) as real == a + 1.0;
  }

  lemma {:induction false} PlacedInts(order: seq<nat>, existing: Existing, moved: Option<nat>, base: real, i: nat)
    requires AllInts(existing) && IsInt(base) && i < |order|
    ensures IsInt(Placed(order, existing, moved, base)[i])
  {
    PlacedAt(order, existing, moved, base, i);
    if i > 0 {
      PlacedInts(order, existing, moved, base, i - 1);
      IntNext(Placed(order, existing, moved, base)[i - 1]);
    }
  }

  /** With whole numbers, the first number is a whole number. */
  lemma BaseIsInt(existing: Existing, moved: Option<nat>, base: real)
    requires AllInts(existing) && IsBase(existing, moved, base)
    ensures IsInt(base)
  {
  }

  /** Another way to arrange them: whole numbers, ascending, none of those that stay lowered. */
  ghost predicate Arrangement(f: seq<real>, order: seq<nat>, existing: Existing, moved: Option<nat>) {
    && |f| == |order|
    && (forall i :: 0 <= i < |f| ==> IsInt(f[i]))
    && (forall i, j :: 0 <= i < j < |f| ==> f[i] < f[j])
    && (forall i :: 0 <= i < |f| && Keeps(existing, moved, order[i]) ==> f[i] >= Mine(existing, order[i]).value)
  }

  /**
   The arrangement moves every channel as little as it can: no arrangement on whole numbers with the
   same first number has any channel lower.
   */
  lemma {:induction false} LeastArrangement(order: seq<nat>, existing: Existing, moved: Option<nat>, base: real, f: seq<real>, i: nat)
    requires Arrangement(f, order, existing, moved) && i < |order|
    requires f[0] == Placed(order, existing, moved, base)[0]
    ensures Placed(order, existing, moved, base)[i] <= f[i]
  {
    if i > 0 {
      LeastArrangement(order, existing, moved, base, f, i - 1);
      PlacedAt(order, existing, moved, base, i);
      IntGap(f[i - 1], f[i]);
    }
  }

  /** Where the numbers there are are whole, it is one itself. */
  lemma PlacedIsAnArrangement(order: seq<nat>, existing: Existing, moved: Option<nat>, base: real)
    requires AllInts(existing) && IsBase(existing, moved, base)
    ensures Arrangement(Placed(order, existing, moved, base), order, existing, moved)
  {
    var p := Placed(order, existing, moved, base);
    BaseIsInt(existing, moved, base);
    forall i | 0 <= i < |p| ensures IsInt(p[i]) {
      PlacedInts(order, existing, moved, base, i);
    }
    forall i, j | 0 <= i < j < |p| ensures p[i] < p[j] {
      PlacedInOrder(order, existing, moved, base, i, j);
    }
    forall i | 0 <= i < |p| && Keeps(existing, moved, order[i]) ensures p[i] >= Mine(existing, order[i]).value {
      NeverLowered(order, existing, moved, base, i);
    }
  }

  /** Both channels have numbers, and `b` the higher one. */
  predicate Higher(existing: Existing, a: nat, b: nat) {
    Mine(existing, a).Some? && Mine(existing, b).Some? && Mine(existing, a).value < Mine(existing, b).value
  }

  /** Once a channel has its own number, and the ones after it are in order already, nothing more moves. */
  lemma {:induction false} StopsWhereThereIsRoom(order: seq<nat>, existing: Existing, moved: Option<nat>, base: real, p: nat, i: nat)
    requires p <= i < |order|
    requires forall k :: p < k < |order| ==> Keeps(existing, moved, order[k]) && Higher(existing, order[k - 1], order[k])
    requires Mine(existing, order[p]) == Some(Placed(order, existing, moved, base)[p])
    ensures Mine(existing, order[i]) == Some(Placed(order, existing, moved, base)[i])
    decreases i
  {
    if i > p {
      StopsWhereThereIsRoom(order, existing, moved, base, p, i - 1);
      PlacedAt(order, existing, moved, base, i);
    }
  }

  /** Asking again, with nothing moved, for what has been applied: the same numbers, whatever the base. */
  lemma {:induction false} AgainIsTheSame(order: seq<nat>, existing: Existing, moved: Option<nat>, base: real,
                                          applied: Existing, base': real, i: nat)
    requires i < |order|
    requires forall k :: 0 <= k < |order| ==> Mine(applied, order[k]) == Some(Placed(order, existing, moved, base)[k])
    ensures Placed(order, applied, None, base')[i] == Placed(order, existing, moved, base)[i]
  {
    PlacedAt(order, applied, None, base', i);
    if i > 0 {
      AgainIsTheSame(order, existing, moved, base, applied, base', i - 1);
      PlacedInOrder(order, existing, moved, base, i - 1, i);
    }
  }
}
