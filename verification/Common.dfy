/** What several models share: optional values, the range of an unsigned int, and sizes of sets of numbers. */
module Common {
  const UINT: nat := 0x1_0000_0000

  datatype Option<T> = None | Some(value: T)

  /** The numbers from a up to b. */
  function Numbers(a: nat, b: nat): (s: set<nat>)
    ensures forall f :: f in s <==> a <= f < b
    ensures |s| == if a <= b then b - a else 0
  {
    if b <= a then {} else Numbers(a, b - 1) + {b - 1}
  }

  lemma {:induction false} SubsetSize(a: set<nat>, b: set<nat>)
    requires a <= b
    ensures |a| <= |b|
  {
    if x :| x in a {
      SubsetSize(a - {x}, b - {x});
    }
  }

  lemma SubsetOfSameSize(a: set<nat>, b: set<nat>)
    requires a <= b && |a| == |b|
    ensures a == b
  {
    forall x | x in b ensures x in a {
      if x !in a {
        SubsetSize(a, b - {x});
      }
    }
  }

  /** The numbers in a list. */
  ghost function Names(s: seq<nat>): set<nat> { set x | x in s }

  lemma {:induction false} NamesCount(s: seq<nat>)
    ensures |Names(s)| <= |s|
  {
    if s != [] {
      NamesCount(s[1..]);
      assert Names(s) == Names(s[1..]) + {s[0]};
    }
  }
}
