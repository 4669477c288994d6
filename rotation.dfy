/**
 * The weekly rotation: shift the person list left by the number of weeks
 * since the base week, give category i to the i-th rotated person, and name
 * the person after the last category the joker.
 */
module Rotation {
  import opened Maybe
  import opened Calendar

  lemma MulAtLeast(d: int, n: int)
    requires n > 0 && d >= 1
    ensures d * n >= n
    decreases d
  {
    if d > 1 {
      MulAtLeast(d - 1, n);
      assert d * n == (d - 1) * n + n;
    }
  }

  /** Quotient and remainder are determined by `a == q * n + r` with `0 <= r < n`. */
  lemma ModUnique(a: int, n: int, q: int, r: int)
    requires n > 0 && 0 <= r < n && a == q * n + r
    ensures a % n == r && a / n == q
  {
    var d := q - a / n;
    assert d * n == a % n - r;
    if d >= 1 {
      MulAtLeast(d, n);
    }
    if d <= -1 {
      MulAtLeast(-d, n);
    }
  }

  lemma ModAdd(a: int, b: int, n: int)
    requires n > 0
    ensures (a % n + b) % n == (a + b) % n
  {
    ModUnique(a + b, n, a / n + (a % n + b) / n, (a % n + b) % n);
  }

  lemma ModAddMultiple(a: int, k: int, n: int)
    requires n > 0
    ensures (a + k * n) % n == a % n
  {
    assert (a / n + k) * n == (a / n) * n + k * n;
    ModUnique(a + k * n, n, a / n + k, a % n);
  }

  lemma ModInjective(x: int, y: int, n: int)
    requires n > 0 && 0 <= y - x < n && x % n == y % n
    ensures x == y
  {
    var d := y / n - x / n;
    assert y - x == d * n;
    if d >= 1 {
      MulAtLeast(d, n);
    }
    if d <= -1 {
      MulAtLeast(-d, n);
    }
  }

  /** JavaScript's `a % n`: truncating, so the remainder has the sign of `a`. */
  function JsRem(a: int, n: int): (r: int)
    requires n > 0
    ensures -n < r < n
    ensures a >= 0 ==> r >= 0
    ensures a <= 0 ==> r <= 0
    ensures r % n == a % n
  {
    if a >= 0 then
      ModUnique(a % n, n, 0, a % n);
      a % n
    else
      var m := (-a) % n;
      var q := (-a) / n;
      if m == 0 then
        ModUnique(a, n, -q, 0);
        0
      else
        ModUnique(a, n, -q - 1, n - m);
        ModUnique(-m, n, -1, n - m);
        -m
  }

  /** `((amount % n) + n) % n`: always a shift in [0, n), congruent to `amount`. */
  function RotationStep(amount: int, n: int): (step: int)
    requires n > 0
    ensures 0 <= step < n
    ensures step == amount % n
  {
    var r := JsRem(amount, n);
    var step := JsRem(r + n, n);
    ModAddMultiple(r, 1, n);
    ModUnique(step, n, 0, step);
    step
  }

  /** `rotateArray`: `items.slice(step).concat(items.slice(0, step))`. */
  function Rotate<T>(items: seq<T>, amount: int): (r: seq<T>)
    ensures |r| == |items|
    ensures forall i :: 0 <= i < |items| ==> r[i] == items[(i + amount) % |items|]
  {
    if |items| == 0 then []
    else
      var n := |items|;
      var step := RotationStep(amount, n);
      var r := items[step..] + items[..step];
      assert forall i :: 0 <= i < n ==> r[i] == items[(i + amount) % n] by {
        forall i | 0 <= i < n
          ensures r[i] == items[(i + amount) % n]
        {
          ModAdd(amount, i, n);
          if i < n - step {
            ModUnique(step + i, n, 0, step + i);
          } else {
            ModUnique(step + i, n, 1, step + i - n);
          }
        }
      }
      r
  }

  /** Rotating by zero changes nothing. */
  lemma RotateZero<T>(items: seq<T>)
    ensures Rotate(items, 0) == items
  {
  }

  /** Rotation is periodic in the length of the list. */
  lemma RotatePeriodic<T>(items: seq<T>, amount: int)
    ensures Rotate(items, amount + |items|) == Rotate(items, amount)
  {
    var n := |items|;
    if n > 0 {
      var a := Rotate(items, amount + n);
      var b := Rotate(items, amount);
      forall i | 0 <= i < n
        ensures a[i] == b[i]
      {
        ModAddMultiple(i + amount, 1, n);
      }
    }
  }

  /** Rotating twice rotates by the sum. */
  lemma RotateCompose<T>(items: seq<T>, a: int, b: int)
    ensures Rotate(Rotate(items, a), b) == Rotate(items, a + b)
  {
    var n := |items|;
    if n > 0 {
      var once := Rotate(items, a);
      var twice := Rotate(once, b);
      var direct := Rotate(items, a + b);
      forall i | 0 <= i < n
        ensures twice[i] == direct[i]
      {
        var k := (i + b) % n;
        assert twice[i] == items[(k + a) % n];
        ModAdd(i + b, a, n);
      }
    }
  }

  /** The rotated list holds the same people, each as often as before. */
  lemma RotatePermutation<T>(items: seq<T>, amount: int)
    ensures multiset(Rotate(items, amount)) == multiset(items)
  {
    if |items| > 0 {
      var step := RotationStep(amount, |items|);
      assert items == items[..step] + items[step..];
    }
  }

  predicate Distinct<T(==)>(s: seq<T>) {
    forall i, j :: 0 <= i < j < |s| ==> s[i] != s[j]
  }

  /** A rotation of distinct people has no one twice. */
  lemma RotateDistinct<T>(items: seq<T>, amount: int)
    requires Distinct(items)
    ensures Distinct(Rotate(items, amount))
  {
    var n := |items|;
    var r := Rotate(items, amount);
    forall i, j | 0 <= i < j < n
      ensures r[i] != r[j]
    {
      if (i + amount) % n == (j + amount) % n {
        ModInjective(i + amount, j + amount, n);
      }
    }
  }

  /** `data.base_date ? new Date(data.base_date) : today`, an unreadable date also falling back to today. */
  function BaseDay(baseDate: Option<int>, today: int): int {
    if baseDate.Some? then baseDate.value else today
  }

  /** `rotatedPersons`: the person list shifted by the weeks since the base week. */
  function RotatedPersons(persons: seq<string>, baseDate: Option<int>, today: int): seq<string> {
    Rotate(persons, WeeksBetween(BaseDay(baseDate, today), today))
  }

  /** The week's order is a permutation of the roster, and the roster itself when no base date is set. */
  lemma RotatedPersonsPermutation(persons: seq<string>, baseDate: Option<int>, today: int)
    ensures multiset(RotatedPersons(persons, baseDate, today)) == multiset(persons)
    ensures baseDate.None? ==> RotatedPersons(persons, baseDate, today) == persons
  {
    var weeks := WeeksBetween(BaseDay(baseDate, today), today);
    RotatePermutation(persons, weeks);
    if baseDate.None? {
      RotateZero(persons);
    }
  }

  /** A week later everyone moves one place further. */
  lemma {:induction false} RotationNextWeek(persons: seq<string>, base: int, today: int)
    ensures RotatedPersons(persons, Some(base), today + 7) == Rotate(RotatedPersons(persons, Some(base), today), 1)
  {
    WeeksBetweenShift(base, today, 1);
    RotateCompose(persons, WeeksBetween(base, today), 1);
  }

  /** With a fixed base date the rotation repeats every `|persons|` weeks. */
  lemma {:induction false} RotationRepeats(persons: seq<string>, base: int, today: int)
    ensures RotatedPersons(persons, Some(base), today + 7 * |persons|) == RotatedPersons(persons, Some(base), today)
  {
    WeeksBetweenShift(base, today, |persons|);
    RotatePeriodic(persons, WeeksBetween(base, today));
  }

  /** `rotatedPersons[i]`, which is `undefined` past the end of the list. */
  function Slot(rotated: seq<string>, i: nat): Option<string> {
    if i < |rotated| then Some(rotated[i]) else None
  }

  /** `rotatedPersons[categories.length] || 'JOKER'` */
  function Joker(rotated: seq<string>, categoryCount: nat): (joker: string)
    ensures joker != ""
    ensures categoryCount < |rotated| && rotated[categoryCount] != "" ==> joker == rotated[categoryCount]
    ensures categoryCount < |rotated| && rotated[categoryCount] == "" ==> joker == "JOKER"
    ensures categoryCount >= |rotated| ==> joker == "JOKER"
  {
    if categoryCount < |rotated| && rotated[categoryCount] != "" then rotated[categoryCount] else "JOKER"
  }

  /** The categories `who` is given, in category order: those whose index falls on `who`'s slot. */
  function AssignedCategories(categories: seq<string>, rotated: seq<string>, who: Option<string>): seq<string> {
    if |categories| == 0 then []
    else
      var k := |categories| - 1;
      AssignedCategories(categories[..k], rotated, who) + (if Slot(rotated, k) == who then [categories[k]] else [])
  }

  /** A category is assigned to `who` exactly when some index holding it falls on `who`'s slot. */
  lemma {:induction false} AssignedCategoriesMeaning(categories: seq<string>, rotated: seq<string>, who: Option<string>, c: string)
    ensures c in AssignedCategories(categories, rotated, who)
        <==> exists i :: 0 <= i < |categories| && categories[i] == c && Slot(rotated, i) == who
  {
    if |categories| > 0 {
      var k := |categories| - 1;
      var prefix := categories[..k];
      AssignedCategoriesMeaning(prefix, rotated, who, c);
      if c in AssignedCategories(prefix, rotated, who) {
        var i :| 0 <= i < |prefix| && prefix[i] == c && Slot(rotated, i) == who;
        assert categories[i] == c;
      }
      if exists i :: 0 <= i < |categories| && categories[i] == c && Slot(rotated, i) == who {
        var i :| 0 <= i < |categories| && categories[i] == c && Slot(rotated, i) == who;
        if i < k {
          assert prefix[i] == c;
        }
      }
    }
  }

  /** Nobody outside the category slots gets a category. */
  lemma {:induction false} UnassignedGetsNothing(categories: seq<string>, rotated: seq<string>, who: Option<string>)
    requires forall i :: 0 <= i < |categories| ==> Slot(rotated, i) != who
    ensures AssignedCategories(categories, rotated, who) == []
  {
    if |categories| > 0 {
      UnassignedGetsNothing(categories[..|categories| - 1], rotated, who);
    }
  }

  /**
   * The `assignments` map: each person on a category slot (or `undefined`
   * when there are more categories than people) maps to its categories in
   * order, and the joker always has an entry, possibly empty.
   */
  method Assignments(categories: seq<string>, rotated: seq<string>, joker: string)
    returns (mapping: map<Option<string>, seq<string>>)
    ensures mapping.Keys == (set i | 0 <= i < |categories| :: Slot(rotated, i)) + {Some(joker)}
    ensures forall who :: who in mapping ==> mapping[who] == AssignedCategories(categories, rotated, who)
  {
    mapping := map[];
    var i := 0;
    while i < |categories|
      invariant 0 <= i <= |categories|
      invariant mapping.Keys == set k | 0 <= k < i :: Slot(rotated, k)
      invariant forall who :: who in mapping ==> mapping[who] == AssignedCategories(categories[..i], rotated, who)
    {
      var person := Slot(rotated, i);
      if person !in mapping {
        UnassignedGetsNothing(categories[..i], rotated, person);
        mapping := mapping[person := []];
      }
      mapping := mapping[person := mapping[person] + [categories[i]]];
      assert categories[..i + 1][..i] == categories[..i];
      i := i + 1;
    }
    assert categories[..i] == categories;
    if Some(joker) !in mapping {
      UnassignedGetsNothing(categories, rotated, Some(joker));
      mapping := mapping[Some(joker) := []];
    }
  }

  /**
   * With distinct, named people and more people than categories, the joker
   * is the person right after the last category's and gets no category.
   */
  lemma JokerIsFree(rotated: seq<string>, categories: seq<string>)
    requires Distinct(rotated)
    requires |categories| < |rotated|
    requires forall i :: 0 <= i < |rotated| ==> rotated[i] != ""
    ensures Joker(rotated, |categories|) == rotated[|categories|]
    ensures AssignedCategories(categories, rotated, Some(Joker(rotated, |categories|))) == []
  {
    UnassignedGetsNothing(categories, rotated, Some(rotated[|categories|]));
  }

  /**
   * Three people, two categories, two weeks after a base Monday: the list
   * is shifted left by two, kitchen goes to C, bath to A, and B is the joker.
   */
  lemma TwoWeeksExample()
    ensures var rotated := RotatedPersons(["A", "B", "C"], Some(19807), 19807 + 14);
      && rotated == ["C", "A", "B"]
      && AssignedCategories(["kitchen", "bath"], rotated, Some("C")) == ["kitchen"]
      && AssignedCategories(["kitchen", "bath"], rotated, Some("A")) == ["bath"]
      && Joker(rotated, 2) == "B"
  {
    assert StartOfIsoWeek(19807) == 19807;
    assert StartOfIsoWeek(19821) == 19821;
    assert WeeksBetween(19807, 19821) == 2;
    var rotated := Rotate(["A", "B", "C"], 2);
    assert rotated == ["C", "A", "B"];
    var cats := ["kitchen", "bath"];
    assert cats[..1] == ["kitchen"];
    assert cats[..1][..0] == [];
  }
}
