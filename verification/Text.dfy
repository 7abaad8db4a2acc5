/** String operations with the meaning they have in the standard library of the program:
    replacing, splitting and joining. */
module Text {
  import opened Collections

  predicate StartsWith(s: string, prefix: string) {
    |prefix| <= |s| && s[..|prefix|] == prefix
  }

  predicate EndsWith(s: string, suffix: string) {
    |suffix| <= |s| && s[|s| - |suffix|..] == suffix
  }

  /** Replaces every occurrence of a pattern, scanning from the left. */
  function ReplaceAll(s: string, pat: string, v: string): string
    requires pat != ""
  {
    if s == "" then ""
    else if StartsWith(s, pat) then v + ReplaceAll(s[|pat|..], pat, v)
    else [s[0]] + ReplaceAll(s[1..], pat, v)
  }

  /** Text in which no occurrence of the pattern starts is copied. */
  lemma {:induction false} ReplaceSkips(x: string, y: string, pat: string, v: string)
    requires pat != ""
    requires forall p :: 0 <= p < |x| ==> !StartsWith((x + y)[p..], pat)
    ensures ReplaceAll(x + y, pat, v) == x + ReplaceAll(y, pat, v)
  {
    if x == "" {
      assert x + y == y;
    } else {
      assert (x + y)[0..] == x + y;
      assert (x + y)[1..] == x[1..] + y;
      forall p | 0 <= p < |x[1..]| ensures !StartsWith((x[1..] + y)[p..], pat) {
        assert (x[1..] + y)[p..] == (x + y)[p + 1..];
      }
      ReplaceSkips(x[1..], y, pat, v);
    }
  }

  lemma ReplaceHead(pat: string, y: string, v: string)
    requires pat != ""
    ensures ReplaceAll(pat + y, pat, v) == v + ReplaceAll(y, pat, v)
  {
    assert (pat + y)[|pat|..] == y;
  }

  lemma {:induction false} ReplaceShrinks(s: string, pat: string, v: string)
    requires pat != "" && |v| <= |pat|
    ensures |ReplaceAll(s, pat, v)| <= |s|
    decreases |s|
  {
    if s != "" {
      if StartsWith(s, pat) {
        ReplaceShrinks(s[|pat|..], pat, v);
      } else {
        ReplaceShrinks(s[1..], pat, v);
      }
    }
  }

  lemma OccurrenceFits(a: string, pat: string, b: string)
    requires pat != "" && Last(pat) !in Front(pat) && a != ""
    requires StartsWith(a + pat + b, pat)
    ensures |a| >= |pat| && StartsWith(a, pat)
    ensures (a + pat + b)[|pat|..] == a[|pat|..] + pat + b
  {
    var s := a + pat + b;
    assert s[|pat| - 1] == Last(pat);
    assert forall k :: |a| <= k < |a| + |pat| - 1 ==> s[k] == Front(pat)[k - |a|];
    assert |a| >= |pat|;
    assert s[..|pat|] == a[..|pat|];
  }

  /** A pattern whose last character occurs in it only once cannot overlap itself, so any given
      occurrence is replaced, and the text before it is handled as if it stood alone. */
  lemma {:induction false} ReplaceAround(a: string, pat: string, b: string, v: string)
    requires pat != "" && Last(pat) !in Front(pat)
    ensures ReplaceAll(a + pat + b, pat, v) == ReplaceAll(a, pat, v) + v + ReplaceAll(b, pat, v)
    decreases |a|
  {
    var s := a + pat + b;
    if a == "" {
      assert s == pat + b;
      ReplaceHead(pat, b, v);
    } else if StartsWith(s, pat) {
      hide StartsWith;
      OccurrenceFits(a, pat, b);
      ReplaceAround(a[|pat|..], pat, b, v);
    } else {
      assert |a| >= |pat| ==> s[..|pat|] == a[..|pat|];
      assert s[1..] == a[1..] + pat + b && s[0] == a[0];
      hide StartsWith;
      ReplaceAround(a[1..], pat, b, v);
    }
  }

  ghost predicate Contains(s: string, sep: string) {
    exists i :: 0 <= i <= |s| && StartsWith(s[i..], sep)
  }

  /** The leftmost occurrence of a separator. */
  function Find(s: string, sep: string): (i: Option<nat>)
    requires sep != ""
    ensures i.Some? ==> i.value + |sep| <= |s| && StartsWith(s[i.value..], sep)
    ensures i.Some? ==> forall k :: 0 <= k < i.value ==> !StartsWith(s[k..], sep)
    ensures i.None? ==> forall k :: 0 <= k <= |s| ==> !StartsWith(s[k..], sep)
  {
    if s == "" then None
    else if StartsWith(s, sep) then assert s[0..] == s; Some(0)
    else
      var rest := Find(s[1..], sep);
      assert forall k :: 1 <= k <= |s| ==> s[k..] == s[1..][k - 1..];
      assert s[0..] == s;
      match rest
      case None => None
      case Some(i) => Some(i + 1)
  }

  /** The pieces between the occurrences of a separator, scanning from the left. */
  function Split(s: string, sep: string): (pieces: seq<string>)
    requires sep != ""
    ensures pieces != []
    decreases |s|
  {
    match Find(s, sep)
    case None => [s]
    case Some(i) => [s[..i]] + Split(s[i + |sep|..], sep)
  }

  function Join(pieces: seq<string>, sep: string): string {
    if pieces == [] then ""
    else if |pieces| == 1 then pieces[0]
    else pieces[0] + sep + Join(pieces[1..], sep)
  }

  lemma PrefixContains(s: string, i: nat, sep: string)
    requires i <= |s| && sep != ""
    requires forall k :: 0 <= k < i ==> !StartsWith(s[k..], sep)
    ensures !Contains(s[..i], sep)
  {
    forall k | 0 <= k <= i ensures !StartsWith(s[..i][k..], sep) {
      if k < i {
        assert |sep| <= i - k ==> s[..i][k..][..|sep|] == s[k..][..|sep|];
      }
    }
  }

  /** No piece contains the separator. */
  lemma {:induction false} PiecesClean(s: string, sep: string)
    requires sep != ""
    ensures forall p :: p in Split(s, sep) ==> !Contains(p, sep)
    decreases |s|
  {
    match Find(s, sep)
    case None =>
    case Some(i) =>
      PiecesClean(s[i + |sep|..], sep);
      PrefixContains(s, i, sep);
  }

  /** No occurrence of the separator starts in `a` once the separator follows it. */
  ghost predicate Separates(a: string, sep: string) {
    forall b: string, k: nat :: k < |a| ==> !StartsWith((a + sep + b)[k..], sep)
  }

  lemma FindAfter(a: string, sep: string, b: string)
    requires sep != "" && Separates(a, sep)
    ensures Find(a + sep + b, sep) == Some(|a|)
  {
    var s := a + sep + b;
    assert s[|a|..] == sep + b && (sep + b)[..|sep|] == sep;
    assert StartsWith(s[|a|..], sep);
    forall k: nat | k < |a| ensures !StartsWith(s[k..], sep) {
    }
  }

  lemma SplitAfter(a: string, sep: string, b: string)
    requires sep != "" && Separates(a, sep)
    ensures Split(a + sep + b, sep) == [a] + Split(b, sep)
  {
    FindAfter(a, sep, b);
    var s := a + sep + b;
    assert s[..|a|] == a && s[|a| + |sep|..] == b;
  }

  /** A separator whose first character does not come back in it cannot start in clean text and
      end in the separator that follows. */
  lemma CleanSeparates(a: string, sep: string)
    requires sep != "" && sep[0] !in sep[1..]
    requires !Contains(a, sep)
    ensures Separates(a, sep)
  {
    forall b: string, k: nat | k < |a| ensures !StartsWith((a + sep + b)[k..], sep) {
      var s := a + sep + b;
      if k + |sep| <= |a| {
        assert s[k..][..|sep|] == a[k..][..|sep|];
        assert !StartsWith(a[k..], sep);
      } else {
        assert |s[k..]| >= |sep| && s[k..][..|sep|][|a| - k] == s[|a|] == sep[0];
        assert sep[|a| - k] in sep[1..] by {
          assert sep[1..][|a| - k - 1] == sep[|a| - k];
        }
      }
    }
  }

  /** Splitting undoes joining exactly for the non-empty lists of separator-free pieces. */
  lemma {:induction false} SplitJoinExact(pieces: seq<string>, sep: string)
    requires sep != "" && sep[0] !in sep[1..]
    ensures Split(Join(pieces, sep), sep) == pieces <==>
            pieces != [] && forall p :: p in pieces ==> !Contains(p, sep)
  {
    PiecesClean(Join(pieces, sep), sep);
    if pieces != [] && forall p :: p in pieces ==> !Contains(p, sep) {
      if |pieces| == 1 {
        OnePiece(pieces[0], sep);
      } else {
        CleanSeparates(pieces[0], sep);
        SplitAfter(pieces[0], sep, Join(pieces[1..], sep));
        SplitJoinExact(pieces[1..], sep);
        assert pieces == [pieces[0]] + pieces[1..];
      }
    }
  }

  lemma OnePiece(s: string, sep: string)
    requires sep != "" && !Contains(s, sep)
    ensures Split(s, sep) == [s]
  {
    assert Find(s, sep).None?;
  }

  // ---------- Alphabetical order ----------

  predicate AtMost(a: string, b: string) {
    a == "" || (b != "" && (a[0] < b[0] || (a[0] == b[0] && AtMost(a[1..], b[1..]))))
  }

  lemma {:induction false} AtMostOrders(a: string, b: string)
    ensures AtMost(a, b) || AtMost(b, a)
    ensures AtMost(a, b) && AtMost(b, a) ==> a == b
  {
    if a != "" && b != "" && a[0] == b[0] {
      AtMostOrders(a[1..], b[1..]);
      assert a == [a[0]] + a[1..] && b == [b[0]] + b[1..];
    }
  }

  /** The two words first differ at i, and `a` has the smaller character there. */
  ghost predicate LessAt(a: string, b: string, i: nat) {
    i < |a| && i < |b| && a[..i] == b[..i] && a[i] < b[i]
  }

  lemma LessAtRest(a: string, b: string, i: nat)
    requires a != "" && b != "" && a[0] == b[0]
    ensures !LessAt(a, b, 0)
    ensures LessAt(a, b, i + 1) <==> LessAt(a[1..], b[1..], i)
  {
    if i < |a[1..]| && i < |b[1..]| {
      assert a[..i + 1] == [a[0]] + a[1..][..i] && b[..i + 1] == [b[0]] + b[1..][..i];
      assert a[1..][..i] == a[..i + 1][1..] && b[1..][..i] == b[..i + 1][1..];
    }
  }

  lemma LessAtStart(a: string, b: string, i: nat)
    requires a != "" && b != "" && LessAt(a, b, i)
    ensures if i == 0 then a[0] < b[0] else a[0] == b[0]
  {
    if i > 0 {
      assert a[..i][0] == b[..i][0];
    }
  }

  /** One word comes before another exactly if it is a prefix of it or has the smaller character
      where they first differ. */
  lemma {:induction false} AtMostExact(a: string, b: string)
    ensures AtMost(a, b) <==> a <= b || exists i: nat :: LessAt(a, b, i)
  {
    if a != "" && b != "" {
      assert a == [a[0]] + a[1..] && b == [b[0]] + b[1..];
      if a[0] == b[0] {
        AtMostExact(a[1..], b[1..]);
        hide LessAt;
        if i: nat :| LessAt(a[1..], b[1..], i) {
          LessAtRest(a, b, i);
        }
        if i: nat :| LessAt(a, b, i) {
          LessAtRest(a, b, if i == 0 then 0 else i - 1);
        }
      } else {
        assert a[0] < b[0] ==> LessAt(a, b, 0);
        hide LessAt;
        if i: nat :| LessAt(a, b, i) {
          LessAtStart(a, b, i);
        }
      }
    }
  }

  lemma {:induction false} AtMostTransitive(a: string, b: string, c: string)
    requires AtMost(a, b) && AtMost(b, c)
    ensures AtMost(a, c)
  {
    if a != "" && a[0] == b[0] == c[0] {
      AtMostTransitive(a[1..], b[1..], c[1..]);
    }
  }

  lemma {:induction false} LeastExists(words: set<string>) returns (least: string)
    requires words != {}
    ensures least in words && forall w :: w in words ==> AtMost(least, w)
  {
    least :| least in words;
    AtMostOrders(least, least);
    if words != {least} {
      var other := LeastExists(words - {least});
      AtMostOrders(least, other);
      if AtMost(other, least) {
        least := other;
      } else {
        forall w | w in words && w != least ensures AtMost(least, w) {
          AtMostTransitive(least, other, w);
        }
      }
    }
  }

  function Least(words: set<string>): (least: string)
    requires words != {}
    ensures least in words && forall w :: w in words ==> AtMost(least, w)
  {
    assert exists w :: w in words && forall v :: v in words ==> AtMost(w, v) by {
      var w := LeastExists(words);
    }
    assert forall v, w :: v in words && w in words && AtMost(v, w) && AtMost(w, v) ==> v == w by {
      forall v, w | v in words && w in words && AtMost(v, w) && AtMost(w, v) ensures v == w {
        AtMostOrders(v, w);
      }
    }
    var least :| least in words && forall w :: w in words ==> AtMost(least, w);
    least
  }

  ghost predicate StrictlyAlphabetical(words: seq<string>) {
    forall i, j :: 0 <= i < j < |words| ==> words[i] != words[j] && AtMost(words[i], words[j])
  }

  /** The words of a set in alphabetical order. */
  function Alphabetical(words: set<string>): (list: seq<string>)
    ensures ToSet(list) == words && StrictlyAlphabetical(list)
  {
    if words == {} then []
    else
      var least := Least(words);
      var rest := Alphabetical(words - {least});
      assert forall i :: 0 <= i < |rest| ==> rest[i] in ToSet(rest);
      assert ToSet([least] + rest) == {least} + ToSet(rest);
      [least] + rest
  }
}
