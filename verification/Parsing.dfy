/** Small parsers of configuration text, against the printers they should invert. */
module Parsing {
  import opened Collections
  import opened Numbers
  import opened Text

  // ---------- Durations ----------

  /** The White_Space property of Unicode. */
  predicate IsWhitespace(c: char) {
    var n := c as int;
    || 0x09 <= n <= 0x0D || n == 0x20 || n == 0x85 || n == 0xA0 || n == 0x1680
    || 0x2000 <= n <= 0x200A || n == 0x2028 || n == 0x2029 || n == 0x202F || n == 0x205F || n == 0x3000
  }

  function TrimStart(s: string): string {
    if s != "" && IsWhitespace(s[0]) then TrimStart(s[1..]) else s
  }

  function TrimEnd(s: string): string {
    if s != "" && IsWhitespace(Last(s)) then TrimEnd(Front(s)) else s
  }

  function Trim(s: string): string {
    TrimEnd(TrimStart(s))
  }

  /** The number and the multiplier of a trimmed duration. */
  function SplitUnit(s: string): (string, nat)
    requires s != ""
  {
    if Last(s) == 's' then (Front(s), 1)
    else if Last(s) == 'm' then (Front(s), 60)
    else if Last(s) == 'h' then (Front(s), 3600)
    else (s, 1)
  }

  /** Seconds in a duration such as "60s", "5m" or "1h". The multiplication wraps at 64 bits, as
      in a release build. */
  function ParseDurationSecs(s: string): Option<nat> {
    var t := Trim(s);
    if t == "" then None
    else
      var (digits, unit) := SplitUnit(t);
      match ParseU64(digits)
      case None => None
      case Some(n) => Some(n * unit % U64_LIMIT)
  }

  ghost predicate Blank(s: string) {
    forall i :: 0 <= i < |s| ==> IsWhitespace(s[i])
  }

  lemma {:induction false} TrimStartOf(pad: string, s: string)
    requires Blank(pad) && s != "" && !IsWhitespace(s[0])
    ensures TrimStart(pad + s) == s
  {
    if pad == "" {
      assert pad + s == s;
    } else {
      assert (pad + s)[1..] == pad[1..] + s;
      TrimStartOf(pad[1..], s);
    }
  }

  lemma {:induction false} TrimEndOf(s: string, pad: string)
    requires Blank(pad) && s != "" && !IsWhitespace(Last(s))
    ensures TrimEnd(s + pad) == s
  {
    if pad == "" {
      assert s + pad == s;
    } else {
      assert Front(s + pad) == s + Front(pad) && Last(s + pad) == Last(pad);
      TrimEndOf(s, Front(pad));
    }
  }

  function UnitSeconds(unit: string): (k: nat)
    ensures k >= 1
  {
    if unit == "m" then 60 else if unit == "h" then 3600 else 1
  }

  lemma TrimPadded(before: string, t: string, after: string)
    requires Blank(before) && Blank(after)
    requires t != "" && !IsWhitespace(t[0]) && !IsWhitespace(Last(t))
    ensures Trim(before + t + after) == t
  {
    assert before + t + after == before + (t + after);
    TrimStartOf(before, t + after);
    TrimEndOf(t, after);
  }

  lemma SplitUnitOf(d: string, unit: string)
    requires d != "" && AllDigits(d)
    requires unit == "" || unit == "s" || unit == "m" || unit == "h"
    ensures var t := d + unit;
            t != "" && !IsWhitespace(t[0]) && !IsWhitespace(Last(t)) && SplitUnit(t) == (d, UnitSeconds(unit))
  {
    var t := d + unit;
    assert t[0] == d[0] && IsDigit(d[0]) && IsDigit(Last(d));
    assert unit == "" ==> t == d;
    assert unit != "" ==> Front(t) == d && Last(t) == unit[0];
  }

  /** A printed number with a unit, padded with white space, parses to the number of seconds it
      means exactly if that fits in 64 bits; a number that does not fit by itself is rejected. */
  lemma DurationExact(n: nat, unit: string, before: string, after: string)
    requires unit == "" || unit == "s" || unit == "m" || unit == "h"
    requires Blank(before) && Blank(after)
    ensures var r := ParseDurationSecs(before + (ToDecimal(n) + unit) + after);
            && (r == None <==> n >= U64_LIMIT)
            && (r == Some(n * UnitSeconds(unit)) <==> n * UnitSeconds(unit) < U64_LIMIT)
  {
    hide Trim, SplitUnit, ParseU64, ToDecimal, UnitSeconds, Blank;
    var d := ToDecimal(n);
    DecimalRoundTrip(n);
    SplitUnitOf(d, unit);
    TrimPadded(before, d + unit, after);
    ParseU64OfDecimal(n);
    WrapExact(n, UnitSeconds(unit));
  }

  lemma WrapExact(n: nat, k: nat)
    requires k >= 1
    ensures n * k % U64_LIMIT == n * k <==> n * k < U64_LIMIT
    ensures n * k < U64_LIMIT ==> n < U64_LIMIT
  {
    assert n * k >= n;
  }

  /** White space within ASCII. */
  lemma WhitespaceAscii(c: char)
    requires c as int < 128
    ensures IsWhitespace(c) <==> c in " \t\n\U{0B}\U{0C}\r"
  {
  }

  lemma {:induction false} TrimStartSplits(s: string) returns (before: string)
    ensures s == before + TrimStart(s) && Blank(before)
  {
    before := "";
    if s != "" && IsWhitespace(s[0]) {
      var rest := TrimStartSplits(s[1..]);
      before := [s[0]] + rest;
    }
  }

  lemma {:induction false} TrimEndSplits(s: string) returns (after: string)
    ensures s == TrimEnd(s) + after && Blank(after)
  {
    after := "";
    if s != "" && IsWhitespace(Last(s)) {
      var rest := TrimEndSplits(Front(s));
      after := rest + [Last(s)];
      assert s == Front(s) + [Last(s)];
    }
  }

  /** A duration in writing: white space, a 64-bit numeral, nothing or one of three units, white
      space. It stands for that many seconds, minutes or hours in seconds, modulo 2^64. */
  ghost predicate Denotes(s: string, before: string, digits: string, unit: string, after: string, n: nat, v: nat) {
    && s == before + (digits + unit) + after && Blank(before) && Blank(after)
    && DenotesU64(digits, n)
    && (unit == "" || unit == "s" || unit == "m" || unit == "h")
    && (unit == "" || unit == "s" ==> v == n)
    && (unit == "m" ==> v == n * 60 % 0x1_0000_0000_0000_0000)
    && (unit == "h" ==> v == n * 3600 % 0x1_0000_0000_0000_0000)
  }

  lemma NumeralEnds(digits: string, n: nat)
    requires DenotesU64(digits, n)
    ensures digits != "" && IsDigit(Last(digits)) && (IsDigit(digits[0]) || digits[0] == '+')
  {
    hide Numeral;
    NumeralDigits(digits, n);
    if Numeral(digits, n) {
      DigitsArePlaces(digits);
      assert AllDigits(digits);
    } else {
      NumeralDigits(digits[1..], n);
      assert Last(digits[1..]) == Last(digits);
      DigitsArePlaces(digits[1..]);
    }
  }

  /** Exactly these texts are accepted, with the value they stand for. */
  lemma DurationAccepted(s: string, v: nat)
    ensures ParseDurationSecs(s) == Some(v) <==>
            exists before, digits, unit, after, n :: Denotes(s, before, digits, unit, after, n, v)
  {
    hide ParseU64, DenotesU64, Blank;
    if before, digits, unit, after, n :| Denotes(s, before, digits, unit, after, n, v) {
      DenotedParses(s, before, digits, unit, after, n, v);
    }
    if ParseDurationSecs(s) == Some(v) {
      ParsedDenotes(s, v);
    }
  }

  lemma DenotedParses(s: string, before: string, digits: string, unit: string, after: string, n: nat, v: nat)
    requires Denotes(s, before, digits, unit, after, n, v)
    ensures ParseDurationSecs(s) == Some(v)
  {
    hide ParseU64, DenotesU64, Blank, Trim;
    NumeralEnds(digits, n);
    ParseU64Exact(digits, n);
    U64Small(digits, n);
    var t := digits + unit;
    assert t[0] == digits[0] && !IsWhitespace(t[0]);
    if unit == "" {
      assert t == digits;
    } else {
      assert Last(t) == unit[0] && Front(t) == digits;
    }
    assert !IsWhitespace(Last(t));
    TrimPadded(before, t, after);
  }

  lemma U64Small(digits: string, n: nat)
    requires DenotesU64(digits, n)
    ensures n < U64_LIMIT
  {
  }

  lemma ParsedDenotes(s: string, v: nat)
    requires ParseDurationSecs(s) == Some(v)
    ensures exists before, digits, unit, after, n :: Denotes(s, before, digits, unit, after, n, v)
  {
    hide ParseU64, DenotesU64, Blank, TrimStart, TrimEnd;
    var before := TrimStartSplits(s);
    var after := TrimEndSplits(TrimStart(s));
    var t := Trim(s);
    var (digits, k) := SplitUnit(t);
    var n := ParseU64(digits).value;
    var unit := t[|digits|..];
    ParseU64Exact(digits, n);
    U64Small(digits, n);
    assert t == digits + unit;
    assert Last(t) in ['s', 'm', 'h'] ==> unit == [Last(t)];
    assert s == before + (digits + unit) + after;
    assert Denotes(s, before, digits, unit, after, n, v);
  }

  // ---------- Hosts ----------

  /** The part of an authority before its port, path or query. */
  function CutHost(s: string): string {
    Split(Split(Split(s, "/")[0], "?")[0], ":")[0]
  }

  /** Crude extraction of the host from a connection URL. */
  function ExtractHost(url: string): Option<string> {
    var parts := Split(url, "://");
    if |parts| < 2 then None
    else Some(CutHost(Last(Split(parts[1], "@"))))
  }

  /** None of the characters at which a host is cut. */
  ghost predicate PlainHost(host: string) {
    '/' !in host && '?' !in host && ':' !in host
  }

  /** What may follow a host: nothing, a port, a path or a query. */
  ghost predicate AfterHost(tail: string) {
    tail == "" || tail[0] == '/' || tail[0] == '?' || tail[0] == ':'
  }

  lemma FindUnique(s: string, sep: string, i: nat)
    requires sep != "" && i <= |s| && StartsWith(s[i..], sep)
    requires forall k :: 0 <= k < i ==> !StartsWith(s[k..], sep)
    ensures Find(s, sep) == Some(i)
  {
  }

  /** Text in which no separator starts belongs to the first piece. */
  lemma FirstPieceOf(a: string, b: string, sep: string)
    requires sep != ""
    requires forall k :: 0 <= k < |a| ==> !StartsWith((a + b)[k..], sep)
    ensures Split(a + b, sep)[0] == a + Split(b, sep)[0]
  {
    var s := a + b;
    FindShifted(a, b, sep);
    match Find(b, sep)
    case None =>
    case Some(i) => assert s[..|a| + i] == a + b[..i];
  }

  lemma FindShifted(a: string, b: string, sep: string)
    requires sep != ""
    requires forall k :: 0 <= k < |a| ==> !StartsWith((a + b)[k..], sep)
    ensures Find(a + b, sep) == match Find(b, sep) case None => None case Some(i) => Some(|a| + i)
  {
    hide StartsWith;
    var s := a + b;
    forall k | |a| <= k <= |s| ensures s[k..] == b[k - |a|..] {
    }
    match Find(b, sep)
    case None => assert Find(s, sep).None?;
    case Some(i) => FindUnique(s, sep, |a| + i);
  }

  lemma FirstPiece(a: string, b: string, c: char)
    requires c !in a
    ensures Split(a + b, [c])[0] == a + Split(b, [c])[0]
  {
    forall k | 0 <= k < |a| ensures !StartsWith((a + b)[k..], [c]) {
      assert (a + b)[k..][..1] == [a[k]] && a[k] in a;
    }
    FirstPieceOf(a, b, [c]);
  }

  lemma FirstPieceEmpty(b: string, c: char)
    requires b != "" && b[0] == c
    ensures Split(b, [c])[0] == ""
  {
    assert b[0..] == b && b[..1] == [c];
    FindUnique(b, [c], 0);
  }

  lemma CutHostOf(host: string, tail: string)
    requires PlainHost(host) && AfterHost(tail)
    ensures CutHost(host + tail) == host
  {
    FirstPiece(host, tail, '/');
    var t1 := Split(tail, "/")[0];
    FirstPieceStart(tail, '/');
    FirstPiece(host, t1, '?');
    var t2 := Split(t1, "?")[0];
    FirstPieceStart(t1, '?');
    FirstPiece(host, t2, ':');
    if t2 != "" {
      FirstPieceEmpty(t2, ':');
    } else {
      assert Find("", ":") == None;
    }
    assert host + "" == host;
  }

  /** Cutting keeps the shape of what follows a host, and removes one way to start it. */
  lemma FirstPieceStart(tail: string, c: char)
    ensures var t := Split(tail, [c])[0];
            t != "" ==> tail != "" && t[0] == tail[0] && t[0] != c
  {
    if tail != "" && tail[0] == c {
      FirstPieceEmpty(tail, c);
    }
  }

  lemma {:induction false} Stem(s: string) returns (p: string, q: string)
    ensures s == p + q && PlainHost(p) && AfterHost(q)
  {
    if AfterHost(s) {
      p, q := "", s;
    } else {
      var t;
      t, q := Stem(s[1..]);
      p := [s[0]] + t;
    }
  }

  /** Cutting keeps exactly the text before the first slash, question mark or colon; so it keeps a
      host whole exactly if the host contains none of them. */
  lemma CutHostExact(s: string)
    ensures CutHost(s) <= s && PlainHost(CutHost(s)) && AfterHost(s[|CutHost(s)|..])
    ensures CutHost(s) == s <==> PlainHost(s)
  {
    hide CutHost;
    var p, q := Stem(s);
    CutHostOf(p, q);
    assert s[|p|..] == q;
    if PlainHost(s) {
      CutHostOf(s, "");
      assert s + "" == s;
    }
  }

  /** What is cut off does not depend on what follows the host. */
  lemma CutHostDelimited(host: string, tail: string)
    requires AfterHost(tail)
    ensures CutHost(host + tail) == CutHost(host)
  {
    hide CutHost;
    var p, q := Stem(host);
    CutHostOf(p, q);
    CutHostOf(p, q + tail);
    assert host + tail == p + (q + tail);
  }

  /** The text between the first "://" and the next one, for a URL in parts. */
  lemma AuthorityOf(scheme: string, rest: string)
    requires !Contains(scheme, "://")
    ensures var parts := Split(scheme + "://" + rest, "://");
            |parts| >= 2 && parts[1] == Split(rest, "://")[0]
  {
    assert "://"[1..] == "//";
    CleanSeparates(scheme, "://");
    SplitAfter(scheme, "://", rest);
  }

  lemma {:induction false} LastPiece(a: string, b: string, c: char)
    requires c !in b
    ensures Last(Split(a + [c] + b, [c])) == b
    decreases |a|
  {
    var s := a + [c] + b;
    match Find(a, [c])
    case None =>
      assert forall i :: 0 <= i < |a| ==> a[i..][..1] == [a[i]];
      NoCharSeparates(a, c);
      SplitAfter(a, [c], b);
      NoCharOnePiece(b, c);
    case Some(i) =>
      var a1, a2 := a[..i], a[i + 1..];
      assert a[i..][..1] == [c] && a == a1 + [c] + a2;
      assert s == a1 + [c] + (a2 + [c] + b);
      assert forall k :: 0 <= k < |a1| ==> a[k..][..1] == [a1[k]];
      NoCharSeparates(a1, c);
      SplitAfter(a1, [c], a2 + [c] + b);
      LastPiece(a2, b, c);
  }

  lemma NoCharSeparates(a: string, c: char)
    requires c !in a
    ensures Separates(a, [c])
  {
    forall b: string, k: nat | k < |a| ensures !StartsWith((a + [c] + b)[k..], [c]) {
      assert (a + [c] + b)[k..][..1] == [a[k]] && a[k] in a;
    }
  }

  lemma NoCharOnePiece(b: string, c: char)
    requires c !in b
    ensures Split(b, [c]) == [b]
  {
    forall k | 0 <= k <= |b| ensures !StartsWith(b[k..], [c]) {
      if k < |b| {
        assert b[k..][..1] == [b[k]] && b[k] in b;
      }
    }
    assert Find(b, [c]) == None;
  }

  function Credentials(credentials: Option<string>): string {
    match credentials
    case None => ""
    case Some(c) => c + "@"
  }

  /** No "://" starts in clean credentials or in the `@` behind them. */
  lemma NoStraddle(c: string, rest: string)
    requires !Contains(c, "://")
    ensures forall k :: 0 <= k < |c + "@"| ==> !StartsWith((c + "@" + rest)[k..], "://")
  {
    var s := c + "@" + rest;
    forall k | 0 <= k < |c + "@"| ensures !StartsWith(s[k..], "://") {
      if k + 3 <= |c| {
        assert s[k..][..3] == c[k..][..3];
        assert !StartsWith(c[k..], "://");
      } else {
        assert s[|c|] == '@';
        assert |s[k..]| >= 3 ==> s[k..][..3][|c| - k] == '@';
      }
    }
  }

  /** Text with an `@` falls into what precedes and what follows the last one. */
  lemma {:induction false} LastAt(t: string) returns (x: string, y: string)
    requires '@' in t
    ensures t == x + "@" + y && '@' !in y
  {
    if Last(t) == '@' {
      x, y := Front(t), "";
    } else {
      assert t == Front(t) + [Last(t)];
      var z;
      x, z := LastAt(Front(t));
      y := z + [Last(t)];
    }
  }

  /** A separator inside the first part of a text ends its first piece. */
  lemma FirstPieceInside(a: string, b: string, sep: string)
    requires sep != "" && Contains(a, sep)
    ensures Split(a + b, sep)[0] == Split(a, sep)[0]
  {
    var i := Find(a, sep).value;
    forall k | 0 <= k <= i ensures StartsWith((a + b)[k..], sep) <==> StartsWith(a[k..], sep) {
      assert k + |sep| <= |a| && (a + b)[k..][..|sep|] == a[k..][..|sep|];
    }
    FindUnique(a + b, sep, i);
  }

  lemma CredentialsCut(scheme: string, c: string, rest: string)
    requires !Contains(scheme, "://") && Contains(c, "://")
    ensures ExtractHost(scheme + "://" + (c + rest)) == Some(CutHost(Last(Split(Split(c, "://")[0], "@"))))
  {
    hide CutHost, Split;
    AuthorityOf(scheme, c + rest);
    FirstPieceInside(c, rest, "://");
  }

  /** Text up to an `@` does not matter to what follows the last one. */
  lemma LastAfterAt(c: string, r: string)
    ensures Last(Split(c + "@" + r, "@")) == Last(Split(r, "@"))
    ensures '@' !in r ==> Last(Split(r, "@")) == r
  {
    hide Split;
    if '@' in r {
      var x, y := LastAt(r);
      LastPiece(x, y, '@');
      LastPiece(c + "@" + x, y, '@');
      assert c + "@" + r == (c + "@" + x) + ['@'] + y && r == x + ['@'] + y;
    } else {
      LastPiece(c, r, '@');
      NoCharOnePiece(r, '@');
    }
  }

  lemma FirstPiecePrefix(s: string, sep: string)
    requires sep != ""
    ensures var r := Split(s, sep)[0];
            r <= s && (r == s || StartsWith(s[|r|..], sep))
  {
  }

  lemma CleanCredentials(scheme: string, credentials: Option<string>, rest: string)
    requires !Contains(scheme, "://") && (credentials.Some? ==> !Contains(credentials.value, "://"))
    ensures ExtractHost(scheme + "://" + (Credentials(credentials) + rest)) ==
            Some(CutHost(Last(Split(Split(rest, "://")[0], "@"))))
  {
    hide CutHost, Split, Contains;
    AuthorityOf(scheme, Credentials(credentials) + rest);
    match credentials
    case None => assert "" + rest == rest;
    case Some(c) =>
      NoStraddle(c, rest);
      FirstPieceOf(c + "@", rest, "://");
      LastAfterAt(c, Split(rest, "://")[0]);
  }

  /** A host without an `@` is cut in the same way whether or not a "://" cuts it or what follows
      it first. */
  lemma FirstPieceHost(host: string, tail: string)
    requires AfterHost(tail)
    ensures CutHost(Split(host + tail, "://")[0]) == CutHost(host)
  {
    hide CutHost, Split;
    var s := host + tail;
    var r := Split(s, "://")[0];
    FirstPiecePrefix(s, "://");
    if |r| >= |host| {
      var t := r[|host|..];
      assert r == host + t;
      assert t != "" ==> t[0] == s[|host|] == tail[0];
      CutHostDelimited(host, t);
    } else {
      assert s[|r|..][..3][0] == s[|r|] == host[|r|];
      assert host == r + host[|r|..];
      CutHostDelimited(r, host[|r|..]);
    }
  }

  /** Nothing is extracted exactly from texts without "://". */
  lemma NoHost(url: string)
    ensures ExtractHost(url) == None <==> !Contains(url, "://")
  {
    match Find(url, "://")
    case None =>
    case Some(i) => assert Contains(url, "://") && |Split(url, "://")| >= 2;
  }

  /** What is extracted from a URL in parts. If the credentials contain "://", the host is looked
      for in what precedes it there. Otherwise it is the host, cut at its first delimiter, unless
      an `@` follows the host before the next "://": then what follows the last such `@` is taken
      for the host. */
  lemma HostExtracted(scheme: string, credentials: Option<string>, host: string, tail: string)
    requires !Contains(scheme, "://") && '@' !in host && AfterHost(tail)
    ensures var r := Split(host + tail, "://")[0];
            ExtractHost(scheme + "://" + (Credentials(credentials) + (host + tail))) ==
            Some(if credentials.Some? && Contains(credentials.value, "://") then
                   CutHost(Last(Split(Split(credentials.value, "://")[0], "@")))
                 else if '@' in r then CutHost(Last(Split(r, "@")))
                 else CutHost(host))
  {
    hide CutHost, Split, Contains;
    if credentials.Some? && Contains(credentials.value, "://") {
      var c := credentials.value;
      CredentialsCut(scheme, c, "@" + (host + tail));
      assert c + ("@" + (host + tail)) == Credentials(credentials) + (host + tail);
    } else {
      CleanCredentials(scheme, credentials, host + tail);
      FirstPieceHost(host, tail);
      LastAfterAt("", Split(host + tail, "://")[0]);
    }
  }

  /** From an ordinary URL the host comes out whole exactly if it contains none of the characters
      at which it is cut. */
  lemma HostKept(scheme: string, credentials: Option<string>, host: string, tail: string)
    requires !Contains(scheme, "://") && '@' !in host && AfterHost(tail) && '@' !in tail
    requires credentials.Some? ==> !Contains(credentials.value, "://")
    ensures ExtractHost(scheme + "://" + (Credentials(credentials) + (host + tail))) == Some(host) <==> PlainHost(host)
  {
    hide CutHost, Split, Contains;
    HostExtracted(scheme, credentials, host, tail);
    CutHostExact(host);
    FirstPiecePrefix(host + tail, "://");
  }

  lemma NoColonNoSeparator(s: string)
    requires ':' !in s
    ensures !Contains(s, "://")
  {
    forall k | 0 <= k <= |s| ensures !StartsWith(s[k..], "://") {
      assert |s[k..]| >= 3 ==> s[k..][..3][0] == s[k] && s[k] in s;
    }
  }

  /** Bracketed addresses are not kept: this is what is taken for the host. */
  lemma BracketedHostCut()
    ensures ExtractHost("mongodb://[::1]:27017/db") == Some("[")
  {
    hide CutHost, Split, ExtractHost;
    var host, tail := "[::1]", ":27017/db";
    NoColonNoSeparator("mongodb");
    HostExtracted("mongodb", None, host, tail);
    FirstPiecePrefix(host + tail, "://");
    assert "mongodb" + "://" + (Credentials(None) + (host + tail)) == "mongodb://[::1]:27017/db";
    CutHostOf("[", "::1]");
    assert "[" + "::1]" == host;
  }
}
