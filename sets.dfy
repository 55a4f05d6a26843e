/** Facts about finite sets that the counting arguments of several modules share. */
module Sets {
  /** A subset is no larger than the set containing it. */
  lemma {:induction false} SubsetSize(a: set<nat>, b: set<nat>)
    requires a <= b
    ensures |a| <= |b|
  {
    if a != {} {
      var x :| x in a;
      SubsetSize(a - {x}, b - {x});
    }
  }

  /** The values of s, as a set. */
  function Elements(s: seq<nat>): set<nat>
  {
    if |s| == 0 then {} else Elements(s[..|s| - 1]) + {s[|s| - 1]}
  }

  /** Elements holds exactly the values of s; when they are distinct, it has |s| of them. */
  lemma {:induction false} ElementsOf(s: seq<nat>)
    ensures forall x :: x in Elements(s) <==> x in s
    ensures (forall i, j :: 0 <= i < j < |s| ==> s[i] != s[j]) ==> |Elements(s)| == |s|
  {
    if |s| > 0 {
      var init := s[..|s| - 1];
      ElementsOf(init);
      assert s == init + [s[|s| - 1]];
      if forall i, j :: 0 <= i < j < |s| ==> s[i] != s[j] {
        assert s[|s| - 1] !in init;
      }
    }
  }
}
