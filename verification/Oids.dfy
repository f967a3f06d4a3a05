/** Object identifiers as tuples of numbers, in Python's (lexicographic) tuple order. */
module Oids {

  type Oid = seq<nat>

  predicate Less(a: Oid, b: Oid) {
    b != [] && (a == [] || a[0] < b[0] || (a[0] == b[0] && Less(a[1..], b[1..])))
  }

  lemma {:induction false} LessIrreflexive(a: Oid)
    ensures !Less(a, a)
  {
    if a != [] {
      LessIrreflexive(a[1..]);
    }
  }

  lemma {:induction false} LessTransitive(a: Oid, b: Oid, c: Oid)
    requires Less(a, b) && Less(b, c)
    ensures Less(a, c)
  {
    if a != [] && a[0] == b[0] == c[0] {
      LessTransitive(a[1..], b[1..], c[1..]);
    }
  }

  lemma {:induction false} LessTotal(a: Oid, b: Oid)
    ensures a == b || Less(a, b) || Less(b, a)
  {
    if a != [] && b != [] && a[0] == b[0] {
      LessTotal(a[1..], b[1..]);
      assert a == [a[0]] + a[1..] && b == [b[0]] + b[1..];
    }
  }

  lemma LessAsymmetric(a: Oid, b: Oid)
    requires Less(a, b)
    ensures !Less(b, a)
  {
    if Less(b, a) {
      LessTransitive(a, b, a);
      LessIrreflexive(a);
    }
  }

  ghost predicate StrictlySorted(s: seq<Oid>) {
    forall i, j :: 0 <= i < j < |s| ==> Less(s[i], s[j])
  }

  /** s lists the set in ascending order, every member once. */
  ghost predicate Enumerates(s: seq<Oid>, oids: set<Oid>) {
    StrictlySorted(s) && forall o :: o in s <==> o in oids
  }

  lemma EmptyEnumeration(s: seq<Oid>, oids: set<Oid>)
    requires Enumerates(s, oids)
    ensures s == [] <==> oids == {}
  {
    if s != [] {
      assert s[0] in s;
    }
  }

  /** There is only one ascending enumeration of a set. */
  lemma {:induction false} EnumerationUnique(s: seq<Oid>, t: seq<Oid>, oids: set<Oid>)
    requires Enumerates(s, oids) && Enumerates(t, oids)
    ensures s == t
    decreases |s|
  {
    EmptyEnumeration(s, oids);
    EmptyEnumeration(t, oids);
    if s != [] {
      assert s[0] in oids && s[0] in t;
      assert t[0] in oids && t[0] in s;
      SameHead(s, t);
      TailEnumerates(s, oids);
      TailEnumerates(t, oids);
      EnumerationUnique(s[1..], t[1..], oids - {s[0]});
      assert s == [s[0]] + s[1..] && t == [t[0]] + t[1..];
    }
  }

  lemma SameHead(s: seq<Oid>, t: seq<Oid>)
    requires StrictlySorted(s) && StrictlySorted(t)
    requires s != [] && t != [] && s[0] in t && t[0] in s
    ensures s[0] == t[0]
  {
    if s[0] != t[0] {
      assert Less(t[0], s[0]);
      assert Less(s[0], t[0]);
      LessAsymmetric(s[0], t[0]);
    }
  }

  lemma TailEnumerates(s: seq<Oid>, oids: set<Oid>)
    requires s != [] && Enumerates(s, oids)
    ensures Enumerates(s[1..], oids - {s[0]})
  {
    assert s == [s[0]] + s[1..];
    forall o | o in s[1..]
      ensures o != s[0]
    {
      LessIrreflexive(s[0]);
    }
  }

  // --- `sorted(oid_map.keys())` ---

  predicate LeastOf(o: Oid, oids: set<Oid>) {
    o in oids && forall p <- oids :: p == o || Less(o, p)
  }

  lemma {:induction false} LeastExists(oids: set<Oid>)
    requires oids != {}
    ensures exists o :: LeastOf(o, oids)
  {
    var o :| o in oids;
    var rest := oids - {o};
    if rest == {} {
      assert forall p <- oids :: p == o || p in rest;
      assert LeastOf(o, oids);
    } else {
      LeastExists(rest);
      var m :| LeastOf(m, rest);
      LessTotal(o, m);
      if Less(o, m) {
        forall p | p in oids
          ensures p == o || Less(o, p)
        {
          if p != o {
            assert p in rest;
            if p != m {
              LessTransitive(o, m, p);
            }
          }
        }
        assert LeastOf(o, oids);
      } else {
        assert LeastOf(m, oids);
      }
    }
  }

  lemma LeastUnique(a: Oid, b: Oid, oids: set<Oid>)
    requires LeastOf(a, oids) && LeastOf(b, oids)
    ensures a == b
  {
    if a != b {
      LessAsymmetric(a, b);
    }
  }

  function SortedOids(oids: set<Oid>): (s: seq<Oid>)
    ensures Enumerates(s, oids)
  {
    if oids == {} then []
    else
      LeastExists(oids);
      assert forall a, b | LeastOf(a, oids) && LeastOf(b, oids) :: a == b by {
        forall a, b | LeastOf(a, oids) && LeastOf(b, oids)
          ensures a == b
        {
          LeastUnique(a, b, oids);
        }
      }
      var o :| LeastOf(o, oids);
      [o] + SortedOids(oids - {o})
  }

  // --- `bisect_right` ---

  /** The first position of a list whose OID is above a given one. */
  function FirstAbove(s: seq<Oid>, o: Oid): (k: nat)
    ensures k <= |s|
    ensures forall i :: 0 <= i < k ==> !Less(o, s[i])
    ensures k < |s| ==> Less(o, s[k])
  {
    if s == [] || Less(o, s[0]) then 0 else 1 + FirstAbove(s[1..], o)
  }

  lemma FirstAboveIs(s: seq<Oid>, o: Oid, k: nat)
    requires k <= |s|
    requires forall i :: 0 <= i < k ==> !Less(o, s[i])
    requires k < |s| ==> Less(o, s[k])
    ensures FirstAbove(s, o) == k
  {
  }

  method BisectRight(s: seq<Oid>, o: Oid) returns (k: nat)
    requires StrictlySorted(s)
    ensures k == FirstAbove(s, o)
  {
    k := 0;
    var hi := |s|;
    while k < hi
      invariant k <= hi <= |s|
      invariant forall i :: 0 <= i < k ==> !Less(o, s[i])
      invariant forall i :: hi <= i < |s| ==> Less(o, s[i])
    {
      var mid := (k + hi) / 2;
      if Less(o, s[mid]) {
        forall i | mid < i < |s|
          ensures Less(o, s[i])
        {
          LessTransitive(o, s[mid], s[i]);
        }
        hi := mid;
      } else {
        forall i | 0 <= i < mid
          ensures !Less(o, s[i])
        {
          if Less(o, s[i]) {
            LessTransitive(o, s[i], s[mid]);
          }
        }
        k := mid + 1;
      }
    }
    FirstAboveIs(s, o, k);
  }

  /** Above a member of an ascending list comes its successor. */
  lemma FirstAboveMember(s: seq<Oid>, k: nat)
    requires StrictlySorted(s) && k < |s|
    ensures FirstAbove(s, s[k]) == k + 1
  {
    LessIrreflexive(s[k]);
    forall i | 0 <= i < k
      ensures !Less(s[k], s[i])
    {
      LessAsymmetric(s[i], s[k]);
    }
    FirstAboveIs(s, s[k], k + 1);
  }
}
