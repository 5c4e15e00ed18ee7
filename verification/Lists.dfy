/** Lists against the sets of their values. */
module Lists {

  ghost predicate NoRepeats(s: seq<string>) {
    forall i, j :: 0 <= i < j < |s| ==> s[i] != s[j]
  }

  function ValueSet(s: seq<string>): set<string> {
    set v | v in s
  }

  lemma {:induction false} ValueSetSize(s: seq<string>)
    ensures |ValueSet(s)| <= |s|
    ensures NoRepeats(s) <==> |ValueSet(s)| == |s|
  {
    if s == [] {
      assert ValueSet(s) == {};
    } else {
      var init, last := s[..|s| - 1], s[|s| - 1];
      ValueSetSize(init);
      assert s == init + [last];
      assert ValueSet(s) == ValueSet(init) + {last};
      if last in init {
        assert ValueSet(s) == ValueSet(init);
        var i :| 0 <= i < |init| && init[i] == last;
        assert s[i] == s[|s| - 1];
      } else {
        assert last !in ValueSet(init);
        assert NoRepeats(init) ==> NoRepeats(s);
        assert NoRepeats(s) ==> NoRepeats(init) by {
          assert forall i :: 0 <= i < |init| ==> init[i] == s[i];
        }
      }
    }
  }

  lemma SubsetSize(a: set<string>, b: set<string>)
    requires a <= b
    ensures |a| <= |b|
    ensures |a| == |b| ==> a == b
  {
    assert b == a + (b - a);
    assert |b| == |a| + |b - a|;
  }

  /** Every list has a repeat-free list of the same values. */
  lemma {:induction false} Distinct(s: seq<string>) returns (d: seq<string>)
    ensures NoRepeats(d) && ValueSet(d) == ValueSet(s)
  {
    if s == [] {
      d := [];
    } else {
      var init, last := s[..|s| - 1], s[|s| - 1];
      d := Distinct(init);
      assert s == init + [last];
      assert ValueSet(s) == ValueSet(init) + {last};
      if last !in ValueSet(init) {
        assert last !in d by { assert last in d ==> last in ValueSet(d); }
        assert ValueSet(d + [last]) == ValueSet(d) + {last};
        d := d + [last];
      }
    }
  }

  lemma DistinctPrepend(first: string, rest: seq<string>)
    requires NoRepeats(rest) && first !in rest
    ensures NoRepeats([first] + rest)
    ensures ValueSet([first] + rest) == {first} + ValueSet(rest)
  {
  }

  lemma DistinctAppend(init: seq<string>, last: string)
    requires NoRepeats(init) && last !in init
    ensures NoRepeats(init + [last])
    ensures ValueSet(init + [last]) == ValueSet(init) + {last}
  {
  }
}
