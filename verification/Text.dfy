/**
 Ordering of strings, as the room state tiebreak uses it: `String` values compare
 lexicographically by code point (which is the order of their UTF-8 bytes).
 */
module Text {

  predicate Less(a: string, b: string)
  {
    b != [] && (a == [] || a[0] < b[0] || (a[0] == b[0] && Less(a[1..], b[1..])))
  }

  lemma {:induction false} LessTotal(a: string, b: string)
    ensures Less(a, b) || a == b || Less(b, a)
  {
    if a != [] && b != [] && a[0] == b[0] {
      LessTotal(a[1..], b[1..]);
      assert a == [a[0]] + a[1..] && b == [b[0]] + b[1..];
    }
  }

  lemma {:induction false} LessAsymmetric(a: string, b: string)
    ensures !(Less(a, b) && Less(b, a))
  {
    if a != [] && b != [] && a[0] == b[0] {
      LessAsymmetric(a[1..], b[1..]);
    }
  }

  lemma {:induction false} LessTransitive(a: string, b: string, c: string)
    requires Less(a, b) && Less(b, c)
    ensures Less(a, c)
  {
    if a != [] && a[0] == b[0] && b[0] == c[0] {
      LessTransitive(a[1..], b[1..], c[1..]);
    }
  }

  /** `a` and `b` first differ at position `i`, where `a` has the lesser character. */
  predicate DiffersAt(a: string, b: string, i: nat) {
    i < |a| && i < |b| && a[..i] == b[..i] && a[i] < b[i]
  }

  lemma DiffersLater(a: string, b: string, i: nat)
    requires DiffersAt(a, b, i)
    ensures i > 0 <==> a[0] == b[0]
  {
    if i > 0 {
      assert a[..i][0] == b[..i][0];
    }
  }

  /** One text comes before another when it is a proper prefix or has the lesser first differing character. */
  lemma {:induction false} LessMeans(a: string, b: string)
    ensures Less(a, b) <==> (|a| < |b| && b[..|a|] == a) || exists i: nat :: DiffersAt(a, b, i)
  {
    if a != [] && b != [] && a[0] == b[0] {
      var a1, b1 := a[1..], b[1..];
      LessMeans(a1, b1);
      assert |a| < |b| && b[..|a|] == a <==> |a1| < |b1| && b1[..|a1|] == a1 by {
        assert |a| <= |b| ==> b[..|a|] == [b[0]] + b1[..|a1|];
        assert a == [a[0]] + a1;
      }
      if i: nat :| DiffersAt(a, b, i) {
        DiffersLater(a, b, i);
        assert a1[..i - 1] == a[..i][1..] && b1[..i - 1] == b[..i][1..];
        assert DiffersAt(a1, b1, i - 1);
      }
      if i: nat :| DiffersAt(a1, b1, i) {
        assert a[..i + 1] == [a[0]] + a1[..i] && b[..i + 1] == [b[0]] + b1[..i];
        assert DiffersAt(a, b, i + 1);
      }
    } else if a != [] && b != [] {
      if a[0] < b[0] {
        assert DiffersAt(a, b, 0);
      }
      if i: nat :| DiffersAt(a, b, i) {
        DiffersLater(a, b, i);
      }
      assert |a| <= |b| ==> b[..|a|][0] == b[0];
    }
  }
}
