/** The code-point order on strings: the order of Python's `sorted`, of Go's `sort.Strings`
    on ASCII text, and the one the generated lookup tables are laid out in. */
module StringOrder {

  /** a comes strictly before b: at the first difference a has the smaller character,
      or a is a proper prefix of b. */
  predicate Less(a: string, b: string)
  {
    if b == [] then false
    else if a == [] then true
    else if a[0] != b[0] then a[0] < b[0]
    else Less(a[1..], b[1..])
  }

  /** Less decided at position i, when the two strings agree before it. */
  lemma {:induction false} LessAt(a: string, b: string, i: nat)
    requires i <= |a| && i <= |b|
    requires a[..i] == b[..i]
    ensures i < |a| && i < |b| && a[i] != b[i] ==> (Less(a, b) <==> a[i] < b[i])
    ensures i == |a| || i == |b| ==> (Less(a, b) <==> |a| < |b|)
  {
    if i > 0 {
      assert a[0] == a[..i][0] == b[..i][0] == b[0];
      assert a[1..][..i - 1] == a[..i][1..] == b[..i][1..] == b[1..][..i - 1];
      LessAt(a[1..], b[1..], i - 1);
    }
  }

  lemma {:induction false} LessIrreflexive(a: string)
    ensures !Less(a, a)
  {
    if a != [] {
      LessIrreflexive(a[1..]);
    }
  }

  lemma {:induction false} LessTransitive(a: string, b: string, c: string)
    requires Less(a, b) && Less(b, c)
    ensures Less(a, c)
  {
    if a != [] && a[0] == b[0] == c[0] {
      LessTransitive(a[1..], b[1..], c[1..]);
    }
  }

  lemma {:induction false} LessTotal(a: string, b: string)
    ensures Less(a, b) || a == b || Less(b, a)
    ensures !(Less(a, b) && Less(b, a))
  {
    if a != [] && b != [] && a[0] == b[0] {
      LessTotal(a[1..], b[1..]);
      assert a == [a[0]] + a[1..] && b == [b[0]] + b[1..];
    }
  }

  /** Strictly ascending, hence free of duplicates. */
  ghost predicate Ascending(keys: seq<string>)
  {
    forall i, j :: 0 <= i < j < |keys| ==> Less(keys[i], keys[j])
  }

  lemma AscendingDistinct(keys: seq<string>, i: nat, j: nat)
    requires Ascending(keys)
    requires i < |keys| && j < |keys| && keys[i] == keys[j]
    ensures i == j
  {
    LessIrreflexive(keys[i]);
  }

  ghost predicate IsLeast(least: string, s: set<string>)
  {
    least in s && forall x :: x in s && x != least ==> Less(least, x)
  }

  lemma {:induction false} LeastExists(s: set<string>)
    requires s != {}
    ensures exists least :: IsLeast(least, s)
  {
    var y :| y in s;
    var rest := s - {y};
    if rest == {} {
      assert s == {y};
      assert IsLeast(y, s);
    } else {
      LeastExists(rest);
      var z :| IsLeast(z, rest);
      LessTotal(y, z);
      var least := if Less(y, z) then y else z;
      forall x | x in s && x != least
        ensures Less(least, x)
      {
        if least == y && x != z {
          LessTransitive(y, z, x);
        }
      }
      assert IsLeast(least, s);
    }
  }

  ghost function Least(s: set<string>): (least: string)
    requires s != {}
    ensures IsLeast(least, s)
  {
    LeastExists(s);
    var least :| IsLeast(least, s);
    least
  }

  /** The elements of s in ascending order: Python's `sorted` on the keys of a dictionary. */
  ghost function Sorted(s: set<string>): (keys: seq<string>)
    ensures forall x :: x in keys <==> x in s
    ensures Ascending(keys)
  {
    if s == {} then []
    else
      var least := Least(s);
      [least] + Sorted(s - {least})
  }
}
