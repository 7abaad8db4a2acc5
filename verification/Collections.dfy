/** Sequence and set vocabulary shared by the models: order of first occurrence, and what
    a capped "insert if absent" container keeps of a stream. */
module Collections {

  datatype Option<+T> = None | Some(value: T)

  function Min(a: nat, b: nat): nat {
    if a <= b then a else b
  }

  function Front<T>(s: seq<T>): seq<T>
    requires s != []
  {
    s[..|s| - 1]
  }

  function Last<T>(s: seq<T>): T
    requires s != []
  {
    s[|s| - 1]
  }

  ghost function ToSet<T>(s: seq<T>): set<T> {
    set x | x in s
  }

  ghost predicate NoDuplicates<T>(s: seq<T>) {
    forall i, j :: 0 <= i < j < |s| ==> s[i] != s[j]
  }

  lemma {:induction false} NoDuplicatesCardinality<T>(s: seq<T>)
    requires NoDuplicates(s)
    ensures |ToSet(s)| == |s|
  {
    if s != [] {
      NoDuplicatesCardinality(Front(s));
      assert ToSet(s) == ToSet(Front(s)) + {Last(s)};
    }
  }

  lemma {:induction false} NoDuplicatesMultiset<T>(s: seq<T>)
    requires NoDuplicates(s)
    ensures multiset(s) == multiset(ToSet(s))
  {
    if s == [] {
      assert ToSet(s) == {};
    } else {
      NoDuplicatesMultiset(Front(s));
      assert s == Front(s) + [Last(s)];
      assert ToSet(s) == ToSet(Front(s)) + {Last(s)};
      assert Last(s) !in ToSet(Front(s));
    }
  }

  lemma SubsetCardinality<T>(a: set<T>, b: set<T>)
    requires a <= b
    ensures |a| <= |b|
  {
    assert b == a + (b - a);
  }

  /** The elements of a sequence in order of first occurrence. */
  ghost function Firsts<T>(s: seq<T>): seq<T> {
    if s == [] then []
    else if Last(s) in Front(s) then Firsts(Front(s))
    else Firsts(Front(s)) + [Last(s)]
  }

  lemma {:induction false} FirstsElements<T>(s: seq<T>)
    ensures ToSet(Firsts(s)) == ToSet(s)
    ensures NoDuplicates(Firsts(s))
    ensures |Firsts(s)| == |ToSet(s)|
  {
    if s != [] {
      var f := Front(s);
      FirstsElements(f);
      assert ToSet(s) == ToSet(f) + {Last(s)};
      assert Last(s) in f <==> Last(s) in ToSet(f);
      if Last(s) !in f {
        assert ToSet(Firsts(s)) == ToSet(Firsts(f)) + {Last(s)};
        forall i | 0 <= i < |Firsts(f)| ensures Firsts(f)[i] != Last(s) {
          assert Firsts(f)[i] in ToSet(Firsts(f));
        }
      }
    }
    NoDuplicatesCardinality(Firsts(s));
  }

  lemma FirstsAppend<T>(s: seq<T>, x: T)
    ensures Firsts(s + [x]) == if x in s then Firsts(s) else Firsts(s) + [x]
  {
    assert Front(s + [x]) == s;
  }

  /** What a container of capacity `cap` keeps of a stream when it refuses new elements once
      it is full: the first min(cap, D) of the D distinct elements. */
  ghost function Keep<T>(s: seq<T>, cap: nat): seq<T> {
    Firsts(s)[..Min(cap, |Firsts(s)|)]
  }

  lemma KeepProperties<T>(s: seq<T>, cap: nat)
    ensures NoDuplicates(Keep(s, cap))
    ensures |Keep(s, cap)| == Min(cap, |ToSet(s)|)
    ensures ToSet(Keep(s, cap)) <= ToSet(s)
    ensures forall x :: x in Keep(s, cap) ==> x in s
    ensures |Keep(s, cap)| < cap ==> ToSet(Keep(s, cap)) == ToSet(s)
    ensures |ToSet(s)| <= cap ==> ToSet(Keep(s, cap)) == ToSet(s)
  {
    FirstsElements(s);
    forall x | x in Keep(s, cap) ensures x in s {
      assert x in ToSet(Firsts(s));
    }
    if |ToSet(s)| <= cap {
      assert Keep(s, cap) == Firsts(s);
    }
  }

  /** A refused element stays refused: the container only ever grows by the element that
      arrives, and only while it has room. */
  lemma KeepAppend<T>(s: seq<T>, x: T, cap: nat)
    ensures Keep(s + [x], cap) ==
            if x in Keep(s, cap) || |Keep(s, cap)| >= cap then Keep(s, cap) else Keep(s, cap) + [x]
    ensures x in s && x !in Keep(s, cap) ==> |Keep(s, cap)| == cap
  {
    FirstsAppend(s, x);
    FirstsElements(s);
    KeepProperties(s, cap);
    assert x in s <==> x in ToSet(Firsts(s));
    if |Keep(s, cap)| < cap {
      assert Keep(s, cap) == Firsts(s);
    }
  }

  lemma {:induction false} KeepMonotone<T>(s: seq<T>, more: seq<T>, cap: nat)
    ensures Keep(s, cap) <= Keep(s + more, cap)
  {
    if more == [] {
      assert s + more == s;
    } else {
      KeepMonotone(s, Front(more), cap);
      assert s + more == (s + Front(more)) + [Last(more)];
      KeepAppend(s + Front(more), Last(more), cap);
    }
  }

  lemma KeepFillsSooner<T>(a: seq<T>, b: seq<T>, cap: nat)
    ensures |Keep(b, cap)| <= |Keep(a + b, cap)|
  {
    KeepProperties(a + b, cap);
    KeepProperties(b, cap);
    SubsetCardinality(ToSet(b), ToSet(a + b));
  }

  /** What is kept of two streams in a row is kept of one of them alone. */
  lemma {:induction false} KeepConcat<T>(a: seq<T>, b: seq<T>, cap: nat, x: T)
    requires x in Keep(a + b, cap)
    ensures x in Keep(a, cap) || x in Keep(b, cap)
  {
    hide Keep;
    if b == [] {
      assert a + b == a;
    } else {
      var f, y := Front(b), Last(b);
      assert a + b == (a + f) + [y] && b == f + [y];
      KeepAppend(a + f, y, cap);
      KeepAppend(f, y, cap);
      KeepFillsSooner(a, f, cap);
      if x in Keep(a + f, cap) {
        KeepConcat(a, f, cap, x);
      }
    }
  }

  ghost function IndexIn<T>(s: seq<T>, x: T): (i: nat)
    requires x in s
    ensures i < |s| && s[i] == x && x !in s[..i]
  {
    if s[0] == x then 0 else 1 + IndexIn(s[1..], x)
  }

  lemma {:induction false} IndexIsFirst<T>(s: seq<T>, x: T, i: nat)
    requires i < |s| && s[i] == x && x !in s[..i]
    ensures IndexIn(s, x) == i
  {
    if i > 0 {
      assert s[0] == s[..i][0];
      assert s[1..][..i - 1] == s[..i][1..];
      IndexIsFirst(s[1..], x, i - 1);
    }
  }

  lemma IndexUnique<T>(s: seq<T>, i: nat)
    requires NoDuplicates(s) && i < |s|
    ensures IndexIn(s, s[i]) == i
  {
    IndexIsFirst(s, s[i], i);
  }

  lemma IndexAppend<T>(s: seq<T>, t: seq<T>, x: T)
    requires x in s
    ensures x in s + t && IndexIn(s + t, x) == IndexIn(s, x)
  {
    var i := IndexIn(s, x);
    assert (s + t)[..i] == s[..i];
    IndexIsFirst(s + t, x, i);
  }

  /** `Firsts` lists elements in the order in which they first occur. */
  lemma {:induction false} FirstsInOrder<T>(s: seq<T>)
    ensures forall i :: 0 <= i < |Firsts(s)| ==> Firsts(s)[i] in s
    ensures forall i, j :: 0 <= i < j < |Firsts(s)| ==>
              Firsts(s)[j] in s && Firsts(s)[i] in s && IndexIn(s, Firsts(s)[i]) < IndexIn(s, Firsts(s)[j])
  {
    if s != [] {
      var f, x := Front(s), Last(s);
      assert s == f + [x];
      FirstsInOrder(f);
      var r := Firsts(f);
      forall i | 0 <= i < |r| ensures r[i] in s && IndexIn(s, r[i]) == IndexIn(f, r[i]) {
        IndexAppend(f, [x], r[i]);
      }
      if x !in f {
        IndexIsFirst(s, x, |f|);
      }
    }
  }

  /** If every occurrence of `c` is preceded by an occurrence of `q`, then a capped container
      that admits `c` has admitted `q` before it. */
  lemma {:induction false} KeepPrecedes<T>(s: seq<T>, q: T, c: T, cap: nat)
    requires q != c
    requires forall i :: 0 <= i < |s| && s[i] == c ==> q in s[..i]
    requires c in Keep(s, cap)
    ensures q in Keep(s, cap)
    ensures IndexIn(Keep(s, cap), q) < IndexIn(Keep(s, cap), c)
  {
    KeepProperties(s, cap);
    assert s != [];
    var f, x := Front(s), Last(s);
    assert s == f + [x];
    KeepAppend(f, x, cap);
    if c in Keep(f, cap) {
      forall i | 0 <= i < |f| && f[i] == c ensures q in f[..i] {
        assert s[i] == c;
        assert s[..i] == f[..i];
      }
      KeepPrecedes(f, q, c, cap);
      if Keep(s, cap) != Keep(f, cap) {
        IndexAppend(Keep(f, cap), [x], q);
        IndexAppend(Keep(f, cap), [x], c);
      }
    } else {
      assert x == c && Keep(s, cap) == Keep(f, cap) + [c];
      assert s[|f|] == c;
      assert q in s[..|f|] && s[..|f|] == f;
      if q !in Keep(f, cap) {
        KeepAppend(f, q, cap);
        assert false;
      }
      IndexAppend(Keep(f, cap), [x], q);
      IndexUnique(Keep(s, cap), |Keep(f, cap)|);
    }
  }

  /** The largest element of a non-empty finite set of naturals. */
  ghost function MaxOf(s: set<nat>): (m: nat)
    requires s != {}
    ensures m in s
    ensures forall x :: x in s ==> x <= m
  {
    var x :| x in s;
    if s == {x} then x
    else
      assert s == (s - {x}) + {x};
      var m := MaxOf(s - {x});
      if x <= m then m else x
  }

  lemma MaxOfInsert(s: set<nat>, x: nat)
    requires s != {}
    ensures MaxOf(s + {x}) == if x <= MaxOf(s) then MaxOf(s) else x
  {
  }

  /** Sum over a sequence of naturals. */
  ghost function Sum(s: seq<nat>): nat {
    if s == [] then 0 else Sum(Front(s)) + Last(s)
  }
}
