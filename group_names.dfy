/** The deterministic name of the conversation group of two users
    (MessageHub.GetGroupName), and the ordinal string order it is built on. */
module GroupNames {

  /** string.CompareOrdinal(a, b) < 0 for non-null strings: the first differing
      character decides, and a proper prefix sorts before the longer string. */
  predicate OrdinalLess(a: string, b: string)
    decreases |a|
  {
    if |a| == 0 then |b| > 0
    else if |b| == 0 then false
    else if a[0] != b[0] then a[0] < b[0]
    else OrdinalLess(a[1..], b[1..])
  }

  lemma {:induction false} OrdinalLessIrreflexive(a: string)
    ensures !OrdinalLess(a, a)
    decreases |a|
  {
    if |a| > 0 {
      OrdinalLessIrreflexive(a[1..]);
    }
  }

  lemma {:induction false} OrdinalLessAsymmetric(a: string, b: string)
    ensures OrdinalLess(a, b) ==> !OrdinalLess(b, a)
    decreases |a|
  {
    if |a| > 0 && |b| > 0 && a[0] == b[0] {
      OrdinalLessAsymmetric(a[1..], b[1..]);
    }
  }

  /** Two different strings are always ordered one way or the other. */
  lemma {:induction false} OrdinalLessTotal(a: string, b: string)
    ensures a == b || OrdinalLess(a, b) || OrdinalLess(b, a)
    decreases |a|
  {
    if |a| > 0 && |b| > 0 && a[0] == b[0] {
      OrdinalLessTotal(a[1..], b[1..]);
      assert a == [a[0]] + a[1..];
      assert b == [b[0]] + b[1..];
    }
  }

  lemma {:induction false} OrdinalLessTransitive(a: string, b: string, c: string)
    ensures OrdinalLess(a, b) && OrdinalLess(b, c) ==> OrdinalLess(a, c)
    decreases |a|
  {
    if |a| > 0 && |b| > 0 && |c| > 0 && a[0] == b[0] && b[0] == c[0] {
      OrdinalLessTransitive(a[1..], b[1..], c[1..]);
    }
  }

  /** The group name: the ordinally greater of the two names, a '-', then the other.
      Equal names give `caller-caller`. */
  function GetGroupName(caller: string, other: string): (r: string)
    ensures !OrdinalLess(caller, other) ==> r == caller + "-" + other
    ensures !OrdinalLess(other, caller) ==> r == other + "-" + caller
  {
    OrdinalLessTotal(caller, other);
    if OrdinalLess(other, caller) then caller + "-" + other else other + "-" + caller
  }

  /** Both participants compute the same name, whoever initiates. */
  lemma GroupNameSymmetric(a: string, b: string)
    ensures GetGroupName(a, b) == GetGroupName(b, a)
  {
    OrdinalLessAsymmetric(a, b);
  }

  /** The '-' separator lets two different pairs share one group name. */
  lemma GroupNameCollision()
    ensures GetGroupName("a-b", "c") == "c-a-b"
    ensures GetGroupName("c-a", "b") == "c-a-b"
  {
  }

  predicate NoSeparator(s: string)
  {
    forall k :: 0 <= k < |s| ==> s[k] != '-'
  }

  /** In `a-b` with no '-' inside `a`, the first '-' stands right after `a`. */
  lemma FirstSeparator(a: string, b: string)
    requires NoSeparator(a)
    ensures (a + "-" + b)[|a|] == '-'
    ensures forall k :: 0 <= k < |a| ==> (a + "-" + b)[k] != '-'
  {
  }

  lemma SplitAtSeparator(a: string, b: string, c: string, d: string)
    requires NoSeparator(a) && NoSeparator(c)
    requires a + "-" + b == c + "-" + d
    ensures a == c && b == d
  {
    var s := a + "-" + b;
    FirstSeparator(a, b);
    FirstSeparator(c, d);
    assert |a| == |c|;
    assert a == s[..|a|];
    assert c == s[..|c|];
    assert b == s[|a| + 1..];
    assert d == s[|c| + 1..];
  }

  /** Without '-' in the user names, a group name determines its pair of users. */
  lemma GroupNameInjectiveWithoutSeparator(a: string, b: string, c: string, d: string)
    requires NoSeparator(a) && NoSeparator(b) && NoSeparator(c) && NoSeparator(d)
    requires GetGroupName(a, b) == GetGroupName(c, d)
    ensures (a == c && b == d) || (a == d && b == c)
  {
    OrdinalLessAsymmetric(a, b);
    OrdinalLessAsymmetric(c, d);
    if !OrdinalLess(a, b) {
      if !OrdinalLess(c, d) {
        SplitAtSeparator(a, b, c, d);
      } else {
        SplitAtSeparator(a, b, d, c);
      }
    } else {
      if !OrdinalLess(c, d) {
        SplitAtSeparator(b, a, c, d);
      } else {
        SplitAtSeparator(b, a, d, c);
      }
    }
  }
}
