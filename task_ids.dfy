/**
 * The task-instance identifier: the five components week, period, assignee,
 * category and index joined with '|' (both the board and the task endpoint
 * build it this way).
 */
module TaskIds {
  import opened Json

  const Separator: char := '|'

  predicate NoSeparator(s: string) {
    forall i :: 0 <= i < |s| ==> s[i] != Separator
  }

  /** The position of the first separator in `s`, or `|s|` when there is none. */
  function FirstSeparator(s: string): (i: nat)
    ensures i <= |s|
    ensures NoSeparator(s[..i])
    ensures i < |s| ==> s[i] == Separator
  {
    if |s| == 0 || s[0] == Separator then 0
    else
      var k := FirstSeparator(s[1..]);
      assert s[1..][..k] == s[1..k + 1];
      1 + k
  }

  /** `s.split('|')`: the inverse of Join on separator-free parts. */
  function Split(s: string): (parts: seq<string>)
    ensures 1 <= |parts|
    ensures forall k :: 0 <= k < |parts| ==> NoSeparator(parts[k])
    decreases |s|
  {
    var i := FirstSeparator(s);
    if i == |s| then [s] else [s[..i]] + Split(s[i + 1..])
  }

  /** Joining separator-free parts and splitting the result gives the parts back. */
  lemma {:induction false} SplitJoin(parts: seq<string>)
    requires 1 <= |parts|
    requires forall k :: 0 <= k < |parts| ==> NoSeparator(parts[k])
    ensures Split(Join(parts, Separator)) == parts
  {
    var s := Join(parts, Separator);
    var p := parts[0];
    if |parts| == 1 {
      assert s == p;
    } else {
      var rest := Join(parts[1..], Separator);
      assert s == p + [Separator] + rest;
      assert s[|p|] == Separator;
      assert forall j :: 0 <= j < |p| ==> s[j] == p[j];
      var i := FirstSeparator(s);
      assert s[..i] == p;
      assert s[i + 1..] == rest;
      SplitJoin(parts[1..]);
      assert parts == [p] + parts[1..];
    }
  }

  /** Join is one-to-one on separator-free parts. */
  lemma JoinInjective(a: seq<string>, b: seq<string>)
    requires 1 <= |a| && 1 <= |b|
    requires forall k :: 0 <= k < |a| ==> NoSeparator(a[k])
    requires forall k :: 0 <= k < |b| ==> NoSeparator(b[k])
    ensures Join(a, Separator) == Join(b, Separator) <==> a == b
  {
    SplitJoin(a);
    SplitJoin(b);
  }

  /** `${week}|${period}|${assignee}|${category}|${index}` from component texts. */
  function TaskId(week: string, period: string, assignee: string, category: string, index: string): string {
    week + [Separator] + period + [Separator] + assignee + [Separator] + category + [Separator] + index
  }

  /** A task id is its five components joined by the separator. */
  lemma TaskIdIsJoin(week: string, period: string, assignee: string, category: string, index: string)
    ensures TaskId(week, period, assignee, category, index) == Join([week, period, assignee, category, index], Separator)
  {
    assert Join([index], Separator) == index;
    assert [category, index][1..] == [index];
    assert Join([category, index], Separator) == category + [Separator] + index;
    assert [assignee, category, index][1..] == [category, index];
    assert Join([assignee, category, index], Separator) == assignee + [Separator] + category + [Separator] + index;
    assert [period, assignee, category, index][1..] == [assignee, category, index];
    assert [week, period, assignee, category, index][1..] == [period, assignee, category, index];
  }

  lemma NatTextNoSeparator(n: nat)
    ensures NoSeparator(NatText(n))
  {
  }

  lemma IntTextNoSeparator(n: int)
    ensures NoSeparator(IntText(n))
  {
    if n >= 0 {
      NatTextNoSeparator(n);
    } else {
      var t := NatText(-n);
      assert IntText(n) == "-" + t;
    }
  }

  /**
   * Two task ids are equal exactly when all five components are equal, as
   * long as the four text components contain no separator (an integer index
   * never does).
   */
  lemma TaskIdInjective(w1: string, p1: string, a1: string, c1: string, i1: int,
                        w2: string, p2: string, a2: string, c2: string, i2: int)
    requires NoSeparator(w1) && NoSeparator(p1) && NoSeparator(a1) && NoSeparator(c1)
    requires NoSeparator(w2) && NoSeparator(p2) && NoSeparator(a2) && NoSeparator(c2)
    ensures TaskId(w1, p1, a1, c1, IntText(i1)) == TaskId(w2, p2, a2, c2, IntText(i2))
        <==> (w1, p1, a1, c1, i1) == (w2, p2, a2, c2, i2)
  {
    IntTextNoSeparator(i1);
    IntTextNoSeparator(i2);
    var a := [w1, p1, a1, c1, IntText(i1)];
    var b := [w2, p2, a2, c2, IntText(i2)];
    TaskIdIsJoin(w1, p1, a1, c1, IntText(i1));
    TaskIdIsJoin(w2, p2, a2, c2, IntText(i2));
    JoinInjective(a, b);
    if a == b {
      assert a[4] == b[4];
      IntTextInjective(i1, i2);
    }
  }

  /** Without the precondition ids collide: a separator inside a component shifts the split. */
  lemma TaskIdCollision()
    ensures TaskId("2024-W10", "a|b", "c", "d", "0") == TaskId("2024-W10", "a", "b|c", "d", "0")
  {
    assert TaskId("2024-W10", "a|b", "c", "d", "0") == "2024-W10|a|b|c|d|0";
    assert TaskId("2024-W10", "a", "b|c", "d", "0") == "2024-W10|a|b|c|d|0";
  }
}
