/** Expanding `${VAR}` references in configuration text. The program replaces the references
    one variable at a time in the text produced so far; the model shows exactly when that is the
    same as substituting all of them at once. */
module EnvExpansion {
  import opened Collections
  import opened Text

  type Env = map<string, string>

  /** A reference to a variable, as written. */
  function Reference(name: string): string {
    "${" + name + "}"
  }

  predicate IsName(name: string) {
    name != "" && '}' !in name
  }

  /** The text up to the first closing brace; None if there is none. */
  function UpToBrace(s: string): (r: Option<string>)
    ensures r.Some? ==> '}' !in r.value && |r.value| < |s| && s[..|r.value|] == r.value && s[|r.value|] == '}'
    ensures r.None? ==> '}' !in s
  {
    if s == "" then None
    else if s[0] == '}' then Some("")
    else match UpToBrace(s[1..])
      case None => None
      case Some(t) => Some([s[0]] + t)
  }

  /** Does a reference (with a non-empty name) start here? */
  function ReferenceAt(s: string): (name: Option<string>)
    ensures name.Some? ==> IsName(name.value) && StartsWith(s, Reference(name.value))
  {
    if StartsWith(s, "${") then
      match UpToBrace(s[2..])
      case Some(name) =>
        if name == "" then None
        else assert s == "${" + s[2..]; Some(name)
      case None => None
    else None
  }

  datatype Token = Literal(c: char) | Variable(name: string)

  /** Leftmost, non-overlapping references; everything else is literal. */
  function Tokens(s: string): seq<Token> {
    if s == "" then []
    else match ReferenceAt(s)
      case Some(name) => [Variable(name)] + Tokens(s[|name| + 3..])
      case None => [Literal(s[0])] + Tokens(s[1..])
  }

  /** The captured names, one per reference, in order. */
  function Captures(tokens: seq<Token>): seq<string> {
    if tokens == [] then []
    else match tokens[0]
      case Variable(name) => [name] + Captures(tokens[1..])
      case Literal(_) => Captures(tokens[1..])
  }

  /** Replacing the references to one variable after the other. */
  function ReplaceEach(text: string, names: seq<string>, env: Env): string
    decreases |names|
  {
    if names == [] then text
    else if names[0] in env then
      ReplaceEach(ReplaceAll(text, Reference(names[0]), env[names[0]]), names[1..], env)
    else ReplaceEach(text, names[1..], env)
  }

  function Expanded(input: string, env: Env): string {
    ReplaceEach(input, Captures(Tokens(input)), env)
  }

  method ExpandEnvVars(input: string, env: Env) returns (result: string)
    ensures result == Expanded(input, env)
  {
    result := input;
    var captures := Captures(Tokens(input));
    for i := 0 to |captures|
      invariant ReplaceEach(result, captures[i..], env) == Expanded(input, env)
    {
      var name := captures[i];
      assert captures[i..][1..] == captures[i + 1..];
      if name in env {
        result := ReplaceAll(result, Reference(name), env[name]);
      }
    }
  }

  // ---------- The meaning: substitution at once ----------

  function Rendered(tok: Token, env: Env, done: set<string>): string {
    match tok
    case Literal(c) => [c]
    case Variable(name) => if name in env && name in done then env[name] else Reference(name)
  }

  /** The text in which exactly the variables in `done` have been substituted. */
  function Partial(tokens: seq<Token>, env: Env, done: set<string>): string {
    if tokens == [] then "" else Rendered(tokens[0], env, done) + Partial(tokens[1..], env, done)
  }

  /** Every defined reference of the input replaced by its value, all at once; undefined ones
      stay as they are. */
  function Substituted(input: string, env: Env): string {
    Partial(Tokens(input), env, env.Keys)
  }

  // ---------- When the two agree ----------

  // Which names an environment can define depends on the platform: those without certain
  // characters (none, NUL, or NUL and the equals sign). They are the parameter `banned`.

  ghost predicate Definable(name: string, banned: set<char>) {
    forall c :: c in name ==> c !in banned
  }

  ghost predicate DefinableNames(env: Env, banned: set<char>) {
    forall n :: n in env ==> Definable(n, banned)
  }

  /** A value that cannot take part in a reference to a definable name, whatever text surrounds
      it: it is not empty, does not end in a dollar, and has no brace opening such a name at its
      start or after a dollar. */
  ghost predicate Inert(v: string, banned: set<char>) {
    && v != ""
    && Last(v) != '$'
    && !OpensName(v, banned)
    && forall i :: 0 <= i < |v| && v[i] == '$' ==> !OpensName(v[i + 1..], banned)
  }

  /** An opening brace not closed right away, with only characters of definable names up to the
      closing brace or the end. */
  ghost predicate OpensName(s: string, banned: set<char>) {
    && s != "" && s[0] == '{'
    && match UpToBrace(s[1..])
       case Some(name) => name != "" && Definable(name, banned)
       case None => Definable(s[1..], banned)
  }

  /** A reference to `m` whose text ends with the reference to `n`. */
  predicate Swallows(m: string, n: string) {
    EndsWith(m, "${" + n)
  }

  /** Two captured names, the second one defined, with one reference inside the other. */
  ghost predicate Entangled(input: string, env: Env) {
    exists m, n :: m in Captures(Tokens(input)) && n in Captures(Tokens(input)) && n in env && Swallows(m, n)
  }

  // ---------- Lemmas about tokens ----------

  /** How a partially substituted text begins. */
  lemma PartialHead(s: string, env: Env, done: set<string>)
    requires s != ""
    ensures Partial(Tokens(s), env, done) ==
            match ReferenceAt(s)
            case Some(name) =>
              (if name in env && name in done then env[name] else Reference(name))
              + Partial(Tokens(s[|name| + 3..]), env, done)
            case None => [s[0]] + Partial(Tokens(s[1..]), env, done)
  {
    match ReferenceAt(s)
    case Some(name) =>
      assert ([Variable(name)] + Tokens(s[|name| + 3..]))[1..] == Tokens(s[|name| + 3..]);
    case None =>
      assert ([Literal(s[0])] + Tokens(s[1..]))[1..] == Tokens(s[1..]);
  }

  lemma {:induction false} TokensVerbatim(s: string, env: Env)
    ensures Partial(Tokens(s), env, {}) == s
    decreases |s|
  {
    if s != "" {
      PartialHead(s, env, {});
      hide Tokens, Partial, ReferenceAt, Reference;
      match ReferenceAt(s)
      case Some(name) =>
        ReferenceSplits(s);
        TokensVerbatim(s[|name| + 3..], env);
      case None =>
        TokensVerbatim(s[1..], env);
        assert [s[0]] + s[1..] == s;
    }
  }

  lemma ReferenceSplits(s: string)
    requires ReferenceAt(s).Some?
    ensures var name := ReferenceAt(s).value;
            |s| >= |name| + 3 && s == Reference(name) + s[|name| + 3..]
  {
    var name := ReferenceAt(s).value;
    assert |Reference(name)| == |name| + 3;
    assert s == s[..|name| + 3] + s[|name| + 3..];
  }

  lemma {:induction false} NoBraceVerbatim(s: string, env: Env, done: set<string>)
    requires '}' !in s
    ensures Partial(Tokens(s), env, done) == s
  {
    if s != "" {
      PartialHead(s, env, done);
      assert |s| >= 2 ==> '}' !in s[2..];
      assert ReferenceAt(s).None?;
      NoBraceVerbatim(s[1..], env, done);
    }
  }

  lemma CapturesHead(s: string)
    requires s != ""
    ensures Captures(Tokens(s)) ==
            match ReferenceAt(s)
            case Some(name) => [name] + Captures(Tokens(s[|name| + 3..]))
            case None => Captures(Tokens(s[1..]))
  {
    match ReferenceAt(s)
    case Some(name) =>
      assert ([Variable(name)] + Tokens(s[|name| + 3..]))[1..] == Tokens(s[|name| + 3..]);
    case None =>
      assert ([Literal(s[0])] + Tokens(s[1..]))[1..] == Tokens(s[1..]);
  }

  lemma {:induction false} CapturesAreNames(s: string)
    ensures forall n :: n in Captures(Tokens(s)) ==> IsName(n)
    decreases |s|
  {
    if s != "" {
      CapturesHead(s);
      hide Tokens, Captures, UpToBrace;
      match ReferenceAt(s)
      case Some(name) =>
        ReferenceSplits(s);
        CapturesAreNames(s[|name| + 3..]);
      case None => CapturesAreNames(s[1..]);
    }
  }

  // ---------- Where a reference can start ----------

  /** What stands at the start of a text that begins with a reference. */
  lemma ReferenceShape(s: string, n: string)
    requires IsName(n)
    ensures StartsWith(s, Reference(n)) <==>
            |s| >= |n| + 3 && s[0] == '$' && s[1] == '{' && s[2..|n| + 2] == n && s[|n| + 2] == '}'
    ensures StartsWith(s, Reference(n)) ==> s[2] != '}'
  {
    var r := Reference(n);
    assert r[2..|n| + 2] == n;
    if StartsWith(s, r) {
      assert s[2..|n| + 2] == s[..|r|][2..|n| + 2];
      assert s[..|r|][0] == s[0] && s[..|r|][1] == s[1] && s[..|r|][|n| + 2] == s[|n| + 2];
      assert s[2] == n[0];
    }
    if |s| >= |n| + 3 && s[0] == '$' && s[1] == '{' && s[2..|n| + 2] == n && s[|n| + 2] == '}' {
      assert s[..|r|] == s[..2] + s[2..|n| + 2] + [s[|n| + 2]];
    }
  }

  /** The only closing brace of a reference is its last character, so an occurrence inside it
      ends where it ends. */
  lemma InsideEnds(m: string, n: string, rest: string, p: nat)
    requires IsName(m) && IsName(n) && p < |m| + 3
    requires StartsWith((Reference(m) + rest)[p..], Reference(n))
    ensures p + |n| == |m| && p != 1
    ensures var s := Reference(m) + rest;
            s[p] == '$' && s[p + 1] == '{' && s[p + 2..|m| + 2] == n && s[2..|m| + 2] == m
  {
    var s := Reference(m) + rest;
    var t := s[p..];
    ReferenceShape(t, n);
    assert s[2..|m| + 2] == m;
    assert forall i :: 2 <= i < |m| + 2 ==> s[i] == m[i - 2] && m[i - 2] in m;
    assert |t| >= |n| + 3 && |s| >= p + |n| + 3;
    forall i | 0 <= i < |n| ensures s[p + 2 + i] == n[i] {
      assert t[2..|n| + 2][i] == t[2 + i] == s[p + 2 + i];
    }
    assert s[p + 2..p + |n| + 2] == n;
    assert forall i :: p + 2 <= i < p + |n| + 2 ==> s[i] == n[i - p - 2] && n[i - p - 2] in n;
    assert s[p + |n| + 2] == t[|n| + 2] == '}';
    assert s[p] == t[0] == '$' && s[p + 1] == t[1] == '{';
    assert s[|m| + 2] == '}' && s[0] == '$' && s[1] == '{';
  }

  /** Inside the text of a reference to `m`, the reference to `n` starts only if it is the whole
      or if `m` swallows `n`. */
  lemma InsideReference(m: string, n: string, rest: string, p: nat)
    requires IsName(m) && IsName(n) && p < |Reference(m)|
    ensures StartsWith((Reference(m) + rest)[p..], Reference(n)) ==> if p == 0 then m == n else Swallows(m, n)
  {
    if StartsWith((Reference(m) + rest)[p..], Reference(n)) {
      hide StartsWith, Swallows;
      InsideEnds(m, n, rest, p);
      if p != 0 {
        SwallowsAt(m, n, Reference(m) + rest);
      }
    }
  }

  lemma SwallowsAt(m: string, n: string, s: string)
    requires |m| >= |n| + 2 && |s| >= |m| + 3 && s[2..|m| + 2] == m
    requires var p := |m| - |n|; s[p] == '$' && s[p + 1] == '{' && s[p + 2..|m| + 2] == n
    ensures Swallows(m, n)
  {
    var p := |m| - |n|;
    assert m[p - 2..] == s[2..|m| + 2][p - 2..] == s[p..|m| + 2] == s[p..p + 2] + s[p + 2..|m| + 2];
  }

  /** If a name and its closing brace begin in `u`, then either all of it is there or `u` ends in
      the middle of the name. */
  lemma CompletesName(u: string, rest: string, n: string)
    requires IsName(n) && |u + rest| > |n| && (u + rest)[..|n|] == n && (u + rest)[|n|] == '}'
    ensures match UpToBrace(u) case Some(name) => name == n case None => |u| <= |n| && u == n[..|u|]
  {
    var y := u + rest;
    assert forall i :: 0 <= i < |n| ==> y[i] == n[i] && n[i] in n;
    match UpToBrace(u)
    case Some(name) =>
      assert y[..|name|] == name && y[|name|] == '}';
      assert forall i :: 0 <= i < |name| ==> y[i] == name[i] && name[i] in name;
      assert |name| == |n|;
    case None =>
      assert forall i :: 0 <= i < |u| ==> u[i] == y[i] && u[i] in u;
  }

  lemma BehindDollar(y: string, n: string)
    requires IsName(n) && StartsWith(['$'] + y, Reference(n))
    ensures |y| >= |n| + 2 && y[0] == '{' && y[1..|n| + 1] == n && y[|n| + 1] == '}'
  {
    var t := ['$'] + y;
    ReferenceShape(t, n);
    assert y[1..|n| + 1] == t[2..|n| + 2];
  }

  /** A text that runs into a reference behind its dollar opens a name. */
  lemma RunsIntoName(x: string, rest: string, n: string, banned: set<char>)
    requires x != "" && IsName(n) && Definable(n, banned)
    requires StartsWith(['$'] + (x + rest), Reference(n))
    ensures OpensName(x, banned)
  {
    hide UpToBrace, StartsWith, Reference;
    var y, u := x + rest, x[1..];
    BehindDollar(y, n);
    assert y[1..] == u + rest;
    assert (u + rest)[..|n|] == y[1..|n| + 1];
    CompletesName(u, rest, n);
  }

  /** No reference to a definable name starts inside an inert value, whatever follows. */
  lemma InsideValue(v: string, n: string, rest: string, p: nat, banned: set<char>)
    requires Inert(v, banned) && IsName(n) && Definable(n, banned) && p < |v|
    ensures !StartsWith((v + rest)[p..], Reference(n))
  {
    var t := (v + rest)[p..];
    if StartsWith(t, Reference(n)) {
      ReferenceShape(t, n);
      assert t[0] == v[p] == '$' && p + 1 < |v|;
      assert t == ['$'] + (v[p + 1..] + rest);
      RunsIntoName(v[p + 1..], rest, n, banned);
    }
  }

  /** The values of the captured variables in `done` are inert. */
  ghost predicate InertDone(s: string, env: Env, done: set<string>, banned: set<char>) {
    forall m :: m in Captures(Tokens(s)) && m in env && m in done ==> Inert(env[m], banned)
  }

  lemma NotAReference(s: string)
    requires s == "" || s[0] != '$' || |s| == 1 || s[1] != '{'
    ensures ReferenceAt(s).None?
  {
    assert |s| >= 2 ==> s[..2][0] == s[0] && s[..2][1] == s[1];
  }

  /** What follows a literal `${` either closes at once or never closes. */
  lemma AfterOpening(s: string, env: Env, done: set<string>)
    requires StartsWith(s, "${") && ReferenceAt(s).None?
    ensures var y := Partial(Tokens(s[2..]), env, done);
            (y != "" && y[0] == '}') || '}' !in y
  {
    hide Tokens, Partial;
    var u := s[2..];
    assert UpToBrace(u).None? || UpToBrace(u).value == "";
    if UpToBrace(u).None? {
      NoBraceVerbatim(u, env, done);
    } else {
      assert u[0] == '}';
      NotAReference(u);
      PartialHead(u, env, done);
    }
  }

  lemma DollarThenOther(c: char, y: string, n: string)
    requires IsName(n) && c != '{'
    ensures !StartsWith(['$'] + ([c] + y), Reference(n))
  {
    if StartsWith(['$'] + ([c] + y), Reference(n)) {
      BehindDollar([c] + y, n);
    }
  }

  lemma DollarThenReference(m: string, y: string, n: string)
    requires IsName(n)
    ensures !StartsWith(['$'] + (Reference(m) + y), Reference(n))
  {
    DollarThenOther('$', "{" + m + "}" + y, n);
    assert Reference(m) + y == ['$'] + ("{" + m + "}" + y);
  }

  lemma DollarThenValue(w: string, y: string, n: string, banned: set<char>)
    requires Inert(w, banned) && IsName(n) && Definable(n, banned)
    ensures !StartsWith(['$'] + (w + y), Reference(n))
  {
    if StartsWith(['$'] + (w + y), Reference(n)) {
      RunsIntoName(w, y, n, banned);
    }
  }

  /** What follows a literal dollar in a partially substituted text is not the rest of a
      reference to a definable name. */
  lemma AfterDollar(s: string, env: Env, done: set<string>, n: string, banned: set<char>)
    requires s != "" && s[0] == '$' && ReferenceAt(s).None? && InertDone(s, env, done, banned)
    requires IsName(n) && Definable(n, banned)
    ensures !StartsWith(['$'] + Partial(Tokens(s[1..]), env, done), Reference(n))
  {
    var t := s[1..];
    CapturesHead(s);
    if t == "" {
      EmptyTokens(env, done);
      assert |Reference(n)| > 1;
    } else {
      PartialHead(t, env, done);
      CapturesHead(t);
      hide Tokens, Partial, Captures, StartsWith, IsName, ReferenceAt, Reference, Inert;
      match ReferenceAt(t)
      case Some(m) =>
        var y := Partial(Tokens(t[|m| + 3..]), env, done);
        if m in env && m in done {
          assert m in Captures(Tokens(t));
          DollarThenValue(env[m], y, n, banned);
        } else {
          DollarThenReference(m, y, n);
        }
      case None =>
        if t[0] == '{' {
          OpeningNeverCloses(s, env, done, n);
        } else {
          DollarThenOther(t[0], Partial(Tokens(t[1..]), env, done), n);
        }
    }
  }

  lemma OpeningNeverCloses(s: string, env: Env, done: set<string>, n: string)
    requires |s| >= 2 && s[0] == '$' && s[1] == '{' && ReferenceAt(s).None? && IsName(n)
    ensures !StartsWith(['$'] + (['{'] + Partial(Tokens(s[1..][1..]), env, done)), Reference(n))
  {
    hide Tokens, Partial;
    assert s[..2] == "${" && s[1..][1..] == s[2..];
    AfterOpening(s, env, done);
    NeverCloses(Partial(Tokens(s[2..]), env, done), n);
  }

  lemma NeverCloses(y: string, n: string)
    requires IsName(n) && ((y != "" && y[0] == '}') || '}' !in y)
    ensures !StartsWith(['$'] + (['{'] + y), Reference(n))
  {
    var t := ['$'] + (['{'] + y);
    ReferenceShape(t, n);
    assert forall i :: 0 <= i < |y| ==> t[i + 2] == y[i] && y[i] in y;
  }

  lemma LiteralSafe(s: string, env: Env, done: set<string>, n: string, banned: set<char>)
    requires s != "" && ReferenceAt(s).None? && InertDone(s, env, done, banned)
    requires IsName(n) && Definable(n, banned)
    ensures !StartsWith([s[0]] + Partial(Tokens(s[1..]), env, done), Reference(n))
  {
    hide Partial, Tokens, Captures;
    if s[0] == '$' {
      AfterDollar(s, env, done, n, banned);
    } else {
      ReferenceShape([s[0]] + Partial(Tokens(s[1..]), env, done), n);
    }
  }

  /** A reference that is not to `n` and does not swallow it is passed over. */
  lemma PassReference(m: string, n: string, v: string, rest: string)
    requires IsName(m) && IsName(n) && m != n && !Swallows(m, n)
    ensures ReplaceAll(Reference(m) + rest, Reference(n), v) == Reference(m) + ReplaceAll(rest, Reference(n), v)
  {
    forall p | 0 <= p < |Reference(m)| ensures !StartsWith((Reference(m) + rest)[p..], Reference(n)) {
      InsideReference(m, n, rest, p);
    }
    ReplaceSkips(Reference(m), rest, Reference(n), v);
  }

  lemma PassValue(w: string, n: string, v: string, rest: string, banned: set<char>)
    requires Inert(w, banned) && IsName(n) && Definable(n, banned)
    ensures ReplaceAll(w + rest, Reference(n), v) == w + ReplaceAll(rest, Reference(n), v)
  {
    forall p | 0 <= p < |w| ensures !StartsWith((w + rest)[p..], Reference(n)) {
      InsideValue(w, n, rest, p, banned);
    }
    ReplaceSkips(w, rest, Reference(n), v);
  }

  lemma PassLiteral(c: char, n: string, v: string, rest: string)
    requires !StartsWith([c] + rest, Reference(n))
    ensures ReplaceAll([c] + rest, Reference(n), v) == [c] + ReplaceAll(rest, Reference(n), v)
  {
    assert ([c] + rest)[0..] == [c] + rest;
    ReplaceSkips([c], rest, Reference(n), v);
  }

  /** One replacement in a partially substituted text substitutes exactly one more variable. */
  lemma {:induction false} ReplaceStep(s: string, env: Env, done: set<string>, n: string, banned: set<char>)
    requires IsName(n) && n in env && Definable(n, banned) && InertDone(s, env, done, banned)
    requires forall m :: m in Captures(Tokens(s)) ==> (m in env && m in done) || !Swallows(m, n)
    ensures ReplaceAll(Partial(Tokens(s), env, done), Reference(n), env[n]) == Partial(Tokens(s), env, done + {n})
    decreases |s|
  {
    hide UpToBrace;
    if s != "" {
      PartialHead(s, env, done);
      PartialHead(s, env, done + {n});
      CapturesHead(s);
      hide Tokens, Partial, Captures;
      match ReferenceAt(s)
      case Some(m) =>
        var rest := s[|m| + 3..];
        var y := Partial(Tokens(rest), env, done);
        ReplaceStep(rest, env, done, n, banned);
        if m in env && m in done {
          PassValue(env[m], n, env[n], y, banned);
        } else if m == n {
          ReplaceHead(Reference(n), y, env[n]);
        } else {
          PassReference(m, n, env[n], y);
        }
      case None =>
        ReplaceStep(s[1..], env, done, n, banned);
        LiteralSafe(s, env, done, n, banned);
        PassLiteral(s[0], n, env[n], Partial(Tokens(s[1..]), env, done));
    }
  }

  lemma {:induction false} ReplaceEachIsPartial(s: string, env: Env, names: seq<string>, done: set<string>,
                                                banned: set<char>)
    requires forall n :: n in names ==> n in Captures(Tokens(s))
    requires DefinableNames(env, banned)
    requires forall n :: n in Captures(Tokens(s)) && n in env ==> Inert(env[n], banned)
    requires !Entangled(s, env)
    ensures ReplaceEach(Partial(Tokens(s), env, done), names, env) ==
            Partial(Tokens(s), env, done + ToSet(names))
    decreases |names|
  {
    if names == [] {
      assert done + ToSet(names) == done;
    } else {
      var n := names[0];
      CapturesAreNames(s);
      assert names == [n] + names[1..];
      assert done + ToSet(names) == (done + {n}) + ToSet(names[1..]);
      ReplaceEachIsPartial(s, env, names[1..], done + {n}, banned);
      if n in env {
        ReplaceStep(s, env, done, n, banned);
      } else {
        PartialSame(s, env, done, done + {n});
      }
    }
  }

  lemma {:induction false} PartialSame(s: string, env: Env, a: set<string>, b: set<string>)
    requires forall n :: n in Captures(Tokens(s)) && n in env ==> (n in a <==> n in b)
    ensures Partial(Tokens(s), env, a) == Partial(Tokens(s), env, b)
    decreases |s|
  {
    if s != "" {
      PartialHead(s, env, a);
      PartialHead(s, env, b);
      CapturesHead(s);
      hide Tokens, Partial, Captures, ReferenceAt, Reference;
      match ReferenceAt(s)
      case Some(m) =>
        ReferenceSplits(s);
        var rest := s[|m| + 3..];
        assert Captures(Tokens(s)) == [m] + Captures(Tokens(rest));
        PartialSame(rest, env, a, b);
      case None => PartialSame(s[1..], env, a, b);
    }
  }

  /** Replacing one variable after the other is substituting all at once, if the values of the
      captured variables are inert and no captured reference swallows another one. */
  lemma ExpandedIsSubstituted(input: string, env: Env, banned: set<char>)
    requires DefinableNames(env, banned)
    requires forall n :: n in Captures(Tokens(input)) && n in env ==> Inert(env[n], banned)
    requires !Entangled(input, env)
    ensures Expanded(input, env) == Substituted(input, env)
  {
    var names := Captures(Tokens(input));
    TokensVerbatim(input, env);
    ReplaceEachIsPartial(input, env, names, {}, banned);
    PartialSame(input, env, {} + ToSet(names), env.Keys);
  }

  // ---------- Which references are captured ----------

  /** A reference starts at a place exactly if the text there is a dollar, an opening brace, one
      or more characters other than a closing brace, and a closing brace. */
  lemma ReferenceAtExact(s: string, n: string)
    ensures ReferenceAt(s) == Some(n) <==> IsName(n) && StartsWith(s, Reference(n))
  {
    if IsName(n) && StartsWith(s, Reference(n)) {
      var rest := s[|n| + 3..];
      assert |Reference(n)| == |n| + 3;
      assert s == Reference(n) + rest;
      TokensOfReference(n, rest);
    }
  }

  ghost predicate NoReferenceIn(a: string, s: string)
    requires |a| <= |s|
  {
    forall k :: 0 <= k < |a| ==> ReferenceAt(s[k..]).None?
  }

  lemma {:induction false} CapturesSkip(a: string, r: string)
    requires NoReferenceIn(a, a + r)
    ensures Captures(Tokens(a + r)) == Captures(Tokens(r))
  {
    if a == "" {
      assert a + r == r;
    } else {
      var s := a + r;
      hide Tokens, Captures, ReferenceAt;
      assert s[0..] == s && s[1..] == a[1..] + r;
      CapturesHead(s);
      forall k | 0 <= k < |a[1..]| ensures ReferenceAt((a[1..] + r)[k..]).None? {
        assert (a[1..] + r)[k..] == s[k + 1..];
      }
      CapturesSkip(a[1..], r);
    }
  }

  /** Captures are the leftmost non-overlapping references: before the first place where one
      starts nothing is captured, and scanning goes on right behind it. */
  lemma CapturesLeftmost(a: string, n: string, b: string)
    requires IsName(n) && NoReferenceIn(a, a + (Reference(n) + b))
    ensures Captures(Tokens(a + (Reference(n) + b))) == [n] + Captures(Tokens(b))
  {
    hide Tokens, Captures, ReferenceAt;
    CapturesSkip(a, Reference(n) + b);
    CapturesHead(Reference(n) + b);
    TokensOfReference(n, b);
  }

  lemma {:induction false} SubstitutedSkip(a: string, r: string, env: Env)
    requires NoReferenceIn(a, a + r)
    ensures Substituted(a + r, env) == a + Substituted(r, env)
  {
    if a == "" {
      assert a + r == r;
    } else {
      hide Substituted, ReferenceAt;
      var s := a + r;
      assert s[0..] == s && s[1..] == a[1..] + r;
      SubstitutedHead(s, env);
      forall k | 0 <= k < |a[1..]| ensures ReferenceAt((a[1..] + r)[k..]).None? {
        assert (a[1..] + r)[k..] == s[k + 1..];
      }
      SubstitutedSkip(a[1..], r, env);
      Regroup(a, Substituted(r, env));
    }
  }

  lemma SubstitutedHead(s: string, env: Env)
    requires s != "" && ReferenceAt(s).None?
    ensures Substituted(s, env) == [s[0]] + Substituted(s[1..], env)
  {
    PartialHead(s, env, env.Keys);
  }

  /** What substitution at once does, in terms of the text: up to the first reference everything is
      kept, a defined name is replaced by its value, an undefined one stays as written, and the
      text behind it is treated by itself. Without references nothing changes. */
  lemma SubstitutedLeftmost(a: string, n: string, b: string, env: Env)
    ensures IsName(n) && NoReferenceIn(a, a + (Reference(n) + b)) ==>
              Substituted(a + (Reference(n) + b), env) ==
              a + ((if n in env then env[n] else "${" + n + "}") + Substituted(b, env))
    ensures NoReferenceIn(a, a) ==> Substituted(a, env) == a
  {
    hide Tokens, Partial, ReferenceAt;
    if IsName(n) && NoReferenceIn(a, a + (Reference(n) + b)) {
      SubstitutedSkip(a, Reference(n) + b, env);
      TokensOfReference(n, b);
      PartialHead(Reference(n) + b, env, env.Keys);
    }
    if NoReferenceIn(a, a) {
      assert a + "" == a;
      SubstitutedSkip(a, "", env);
      EmptyTokens(env, env.Keys);
    }
  }

  lemma {:induction false} NothingDefined(text: string, names: seq<string>, env: Env)
    requires forall n :: n in names ==> n !in env
    ensures ReplaceEach(text, names, env) == text
    decreases |names|
  {
    if names != [] {
      NothingDefined(text, names[1..], env);
    }
  }

  /** A text none of whose captured names is defined is left alone. */
  lemma UndefinedUntouched(input: string, env: Env)
    requires forall n :: n in Captures(Tokens(input)) ==> n !in env
    ensures Expanded(input, env) == input
  {
    NothingDefined(input, Captures(Tokens(input)), env);
  }

  /** Nothing is captured exactly if no reference starts anywhere. */
  lemma {:induction false} CapturesNone(s: string)
    ensures Captures(Tokens(s)) == [] <==> NoReferenceIn(s, s)
  {
    if s != "" {
      CapturesHead(s);
      assert s[0..] == s;
      hide Tokens, Captures;
      if ReferenceAt(s).None? {
        hide ReferenceAt;
        CapturesNone(s[1..]);
        forall k | 0 <= k < |s[1..]| ensures s[1..][k..] == s[k + 1..] {
        }
        forall k | 1 <= k < |s| ensures s[k..] == s[1..][k - 1..] {
        }
      }
    }
  }

  // ---------- The condition on names is exact ----------

  lemma ReferenceEnds(n: string)
    requires IsName(n)
    ensures Last(Reference(n)) !in Front(Reference(n)) && |Reference(n)| == |n| + 3
  {
    var r := Reference(n);
    assert Front(r) == "${" + n;
  }

  /** A reference that swallows another one is damaged when the inner one is replaced. */
  lemma SwallowedReplaced(m: string, n: string, rest: string)
    requires IsName(m) && IsName(n) && Swallows(m, n)
    ensures |ReplaceAll(Reference(m) + rest, Reference(n), "x")| <=
            |m| - |n| + 1 + |ReplaceAll(rest, Reference(n), "x")|
  {
    var u := "${" + m[..|m| - |n| - 2];
    assert Reference(m) == u + Reference(n);
    assert Reference(m) + rest == u + Reference(n) + rest;
    ReferenceEnds(n);
    ReplaceAround(u, Reference(n), rest, "x");
    ReplaceShrinks(u, Reference(n), "x");
  }

  /** Replacing a single variable by one character gives a text no longer than substituting it,
      and a shorter one if some captured reference swallows it. */
  lemma {:induction false} ReplacedLength(s: string, n: string)
    requires IsName(n)
    ensures var env := map[n := "x"];
            var a, b := |ReplaceAll(s, Reference(n), "x")|, |Partial(Tokens(s), env, {n})|;
            a <= b && ((exists m :: m in Captures(Tokens(s)) && Swallows(m, n)) ==> a < b)
    decreases |s|
  {
    hide UpToBrace;
    var env := map[n := "x"];
    if s != "" {
      PartialHead(s, env, {n});
      TokensVerbatim(s, env);
      CapturesHead(s);
      CapturesAreNames(s);
      hide Tokens, Partial, Captures;
      match ReferenceAt(s)
      case Some(m) =>
        var rest := s[|m| + 3..];
        assert s == Reference(m) + rest;
        ReplacedLength(rest, n);
        if m == n {
          ReplaceHead(Reference(n), rest, "x");
        } else if Swallows(m, n) {
          SwallowedReplaced(m, n, rest);
        } else {
          PassReference(m, n, "x", rest);
        }
      case None =>
        ReplacedLength(s[1..], n);
        LiteralSafe(s, env, {}, n, {});
        TokensVerbatim(s[1..], env);
        PassLiteral(s[0], n, "x", s[1..]);
        assert s == [s[0]] + s[1..];
    }
  }

  lemma {:induction false} ReplaceEachShrinks(text: string, names: seq<string>, n: string)
    requires IsName(n)
    ensures |ReplaceEach(text, names, map[n := "x"])| <= |text|
    ensures n in names ==> |ReplaceEach(text, names, map[n := "x"])| <= |ReplaceAll(text, Reference(n), "x")|
    decreases |names|
  {
    if names != [] {
      ReplaceShrinks(text, Reference(n), "x");
      if names[0] == n {
        ReplaceEachShrinks(ReplaceAll(text, Reference(n), "x"), names[1..], n);
      } else {
        ReplaceEachShrinks(text, names[1..], n);
      }
    }
  }

  lemma InertX(banned: set<char>)
    ensures Inert("x", banned)
  {
  }

  /** If a captured reference swallows a captured `n`, giving `n` a harmless value is enough for
      the two readings to differ. */
  lemma SwallowedDiffers(input: string, m: string, n: string)
    requires m in Captures(Tokens(input)) && n in Captures(Tokens(input)) && Swallows(m, n)
    ensures Expanded(input, map[n := "x"]) != Substituted(input, map[n := "x"])
  {
    var env := map[n := "x"];
    CapturesAreNames(input);
    ReplacedLength(input, n);
    ReplaceEachShrinks(input, Captures(Tokens(input)), n);
    assert env.Keys == {n};
  }

  /** No captured reference swallows a definable captured one: exactly then, for this input, the
      two readings agree under every environment of definable names with inert values. */
  lemma NamesExact(input: string, banned: set<char>)
    ensures (forall m, n :: m in Captures(Tokens(input)) && n in Captures(Tokens(input)) && Definable(n, banned)
                            ==> !Swallows(m, n))
            <==>
            (forall env: Env :: DefinableNames(env, banned) && (forall n :: n in env ==> Inert(env[n], banned))
                                ==> Expanded(input, env) == Substituted(input, env))
  {
    hide Tokens, Captures, Expanded, Substituted, Swallows, Definable, Inert;
    var names := Captures(Tokens(input));
    if forall m, n :: m in names && n in names && Definable(n, banned) ==> !Swallows(m, n) {
      forall env: Env | DefinableNames(env, banned) && (forall n :: n in env ==> Inert(env[n], banned))
        ensures Expanded(input, env) == Substituted(input, env)
      {
        ExpandedIsSubstituted(input, env, banned);
      }
    } else {
      var m, n :| m in names && n in names && Definable(n, banned) && Swallows(m, n);
      InertX(banned);
      SwallowedDiffers(input, m, n);
      assert DefinableNames(map[n := "x"], banned);
      assert forall k :: k in map[n := "x"] ==> Inert(map[n := "x"][k], banned);
    }
  }

  // ---------- The condition on values is exact ----------

  lemma TokensOfReference(n: string, rest: string)
    requires IsName(n)
    ensures ReferenceAt(Reference(n) + rest) == Some(n)
    ensures (Reference(n) + rest)[|n| + 3..] == rest
  {
    var s := Reference(n) + rest;
    assert s[..2] == "${";
    assert s[2..] == n + "}" + rest;
    UpToBraceOf(n, rest);
  }

  lemma {:induction false} UpToBraceOf(n: string, rest: string)
    requires '}' !in n
    ensures UpToBrace(n + "}" + rest) == Some(n)
  {
    var s := n + "}" + rest;
    if n != "" {
      assert s[1..] == n[1..] + "}" + rest;
      assert s[0] == n[0] && n[0] in n;
      UpToBraceOf(n[1..], rest);
      assert n == [n[0]] + n[1..];
    }
  }

  lemma LiteralHead(c: char, rest: string, env: Env, done: set<string>)
    requires c != '$'
    ensures Partial(Tokens([c] + rest), env, done) == [c] + Partial(Tokens(rest), env, done)
    ensures Captures(Tokens([c] + rest)) == Captures(Tokens(rest))
  {
    var s := [c] + rest;
    assert s[0] == c && s[1..] == rest;
    NotAReference(s);
    PartialHead(s, env, done);
    CapturesHead(s);
  }

  /** Literal text without a dollar stays as it is. */
  lemma {:induction false} LiteralRun(mid: string, rest: string, env: Env, done: set<string>)
    requires '$' !in mid
    ensures Partial(Tokens(mid + rest), env, done) == mid + Partial(Tokens(rest), env, done)
    ensures Captures(Tokens(mid + rest)) == Captures(Tokens(rest))
  {
    if mid == "" {
      assert mid + rest == rest;
    } else {
      hide Tokens, Partial, Captures;
      var c, m := mid[0], mid[1..];
      LiteralRun(m, rest, env, done);
      LiteralHead(c, m + rest, env, done);
      Regroup(mid, rest);
      Regroup(mid, Partial(Tokens(rest), env, done));
    }
  }

  lemma Regroup(s: string, t: string)
    requires s != ""
    ensures s + t == [s[0]] + (s[1..] + t)
  {
  }

  /** The inputs used against a value: an optional dollar, a reference to `a`, some literal
      text, and a reference to `n`. */
  function Probe(dollar: string, a: string, mid: string, n: string): string {
    dollar + (Reference(a) + (mid + (Reference(n) + "")))
  }

  lemma ProbeTokens(dollar: string, a: string, mid: string, n: string, env: Env, done: set<string>)
    requires (dollar == "" || dollar == "$") && IsName(a) && IsName(n) && '$' !in mid
    ensures Captures(Tokens(Probe(dollar, a, mid, n))) == [a, n]
    ensures Partial(Tokens(Probe(dollar, a, mid, n)), env, done) ==
            dollar + (Rendered(Variable(a), env, done) + (mid + (Rendered(Variable(n), env, done) + "")))
  {
    hide Tokens, Partial, Captures, ReferenceAt;
    var s3 := Reference(n) + "";
    var s2 := mid + s3;
    var s1 := Reference(a) + s2;
    var s0 := dollar + s1;
    EmptyTokens(env, done);
    TokensOfReference(n, "");
    PartialHead(s3, env, done);
    CapturesHead(s3);
    LiteralRun(mid, s3, env, done);
    TokensOfReference(a, s2);
    PartialHead(s1, env, done);
    CapturesHead(s1);
    if dollar == "$" {
      assert s0[1..] == s1 && s0[1] == '$';
      NotAReference(s0);
      PartialHead(s0, env, done);
      CapturesHead(s0);
    } else {
      assert s0 == s1;
    }
    assert [a] + ([n] + []) == [a, n];
  }

  lemma EmptyTokens(env: Env, done: set<string>)
    ensures Partial(Tokens(""), env, done) == "" && Captures(Tokens("")) == []
  {
  }

  /** A reference to `n` formed by accident around the value of `a` is replaced along with the
      real one, which a substitution at once would leave. */
  lemma ProbeDiffers(dollar: string, a: string, v: string, mid: string, n: string, u: string, w: string)
    requires (dollar == "" || dollar == "$") && IsName(a) && IsName(n) && '$' !in mid
    requires a != n && !Swallows(a, a) && !Swallows(n, a)
    requires dollar + v + mid == u + Reference(n) + w
    ensures var env := map[a := v, n := "x"];
            Expanded(Probe(dollar, a, mid, n), env) != Substituted(Probe(dollar, a, mid, n), env)
  {
    hide Tokens, Partial, Captures, ReferenceAt, ReplaceAll;
    var env := map[a := v, n := "x"];
    var input := Probe(dollar, a, mid, n);
    var ref := Reference(n);
    ProbeTokens(dollar, a, mid, n, env, {});
    ProbeTokens(dollar, a, mid, n, env, {a});
    ProbeTokens(dollar, a, mid, n, env, env.Keys);
    TokensVerbatim(input, env);
    ReplaceStep(input, env, {}, a, {});
    var first := ReplaceAll(input, Reference(a), v);
    assert {} + {a} == {a};
    ProbeText(dollar, v, mid, ref, u, w);
    assert first == u + ref + (w + ref + "");
    ExpandTwo(input, a, n, env);
    ReferenceEnds(n);
    ReplaceAround(u, ref, w + ref + "", "x");
    ReplaceAround(w, ref, "", "x");
    ReplaceShrinks(u, ref, "x");
    ReplaceShrinks(w, ref, "x");
    ReplaceShrinks("", ref, "x");
    assert |Expanded(input, env)| <= |u| + |w| + 2;
    assert |Substituted(input, env)| == |u| + |ref| + |w| + 1;
  }

  lemma ProbeText(dollar: string, v: string, mid: string, ref: string, u: string, w: string)
    requires dollar + v + mid == u + ref + w
    ensures dollar + (v + (mid + (ref + ""))) == u + ref + (w + ref + "")
  {
    assert dollar + (v + (mid + (ref + ""))) == (dollar + v + mid) + ref;
    assert u + ref + w + ref == u + ref + (w + ref + "");
  }

  lemma ExpandTwo(input: string, a: string, n: string, env: Env)
    requires Captures(Tokens(input)) == [a, n] && a in env && n in env
    ensures Expanded(input, env) == ReplaceAll(ReplaceAll(input, Reference(a), env[a]), Reference(n), env[n])
  {
    hide Tokens, Captures, ReplaceAll;
    assert [a, n][1..] == [n] && [n][1..] == [];
    var t := ReplaceAll(input, Reference(a), env[a]);
    assert ReplaceEach(input, [a, n], env) == ReplaceEach(t, [n], env);
    assert ReplaceEach(t, [n], env) == ReplaceEach(ReplaceAll(t, Reference(n), env[n]), [], env);
  }

  /** A brace that opens a name can be completed to a reference by the text after it. */
  lemma Completed(x: string, banned: set<char>) returns (mid: string, n: string, w: string)
    requires OpensName(x, banned) && 'B' !in banned
    ensures '$' !in mid && IsName(n) && Definable(n, banned)
    ensures "$" + x + mid == Reference(n) + w
  {
    var t := x[1..];
    assert x == "{" + t;
    match UpToBrace(t)
    case Some(name) =>
      mid, n, w := "", name, t[|name| + 1..];
      assert t == name + "}" + w;
    case None =>
      mid, n, w := "B}", t + "B", "";
  }

  lemma ProbeFails(dollar: string, v: string, mid: string, n: string, u: string, w: string, banned: set<char>)
    returns (input: string, env: Env)
    requires (dollar == "" || dollar == "$") && IsName(n) && '$' !in mid
    requires dollar + v + mid == u + Reference(n) + w
    requires Definable(n, banned) && 'A' !in banned
    ensures DefinableNames(env, banned) && InertBut(env, v, banned)
    ensures !Entangled(input, env) && Expanded(input, env) != Substituted(input, env)
  {
    hide Expanded, Substituted, Tokens, Captures, Inert;
    var a := n + "A";
    input, env := Probe(dollar, a, mid, n), map[a := v, n := "x"];
    InertX(banned);
    ProbeTokens(dollar, a, mid, n, env, {});
    ProbeDiffers(dollar, a, v, mid, n, u, w);
  }

  ghost predicate InertBut(env: Env, v: string, banned: set<char>) {
    forall k :: k in env ==> env[k] == v || Inert(env[k], banned)
  }

  /** Against every value that is not inert there is an input, without entangled names and with
      harmless other values, on which the two readings differ. */
  lemma NotInertFails(v: string, banned: set<char>) returns (input: string, env: Env)
    requires !Inert(v, banned) && 'A' !in banned && 'B' !in banned
    ensures DefinableNames(env, banned) && InertBut(env, v, banned)
    ensures !Entangled(input, env) && Expanded(input, env) != Substituted(input, env)
  {
    hide Expanded, Substituted, Entangled, Reference, OpensName;
    if v == "" {
      ReferenceOfB("", "");
      input, env := ProbeFails("$", v, "{B}", "B", "", "", banned);
    } else if Last(v) == '$' {
      ReferenceOfB(v, Front(v));
      input, env := ProbeFails("", v, "{B}", "B", Front(v), "", banned);
    } else if OpensName(v, banned) {
      var mid, n, w := Completed(v, banned);
      assert "" + Reference(n) == Reference(n);
      input, env := ProbeFails("$", v, mid, n, "", w, banned);
    } else {
      var i :| 0 <= i < |v| && v[i] == '$' && OpensName(v[i + 1..], banned);
      var mid, n, w := Completed(v[i + 1..], banned);
      FromDollar(v, i, mid, Reference(n), w);
      input, env := ProbeFails("", v, mid, n, v[..i], w, banned);
    }
  }

  lemma FromDollar(v: string, i: nat, mid: string, r: string, w: string)
    requires i < |v| && v[i] == '$' && "$" + v[i + 1..] + mid == r + w
    ensures "" + v + mid == v[..i] + r + w
  {
    assert v + mid == v[..i] + ("$" + v[i + 1..] + mid);
    assert v[..i] + (r + w) == v[..i] + r + w;
  }

  lemma ReferenceOfB(v: string, u: string)
    requires v == "" ==> u == ""
    requires v != "" ==> v == u + "$"
    ensures v == "" ==> "$" + v + "{B}" == u + Reference("B") + ""
    ensures v != "" ==> "" + v + "{B}" == u + Reference("B") + ""
  {
    assert Reference("B") == "$" + "{B}";
  }

  /** A value is harmless on every input without entangled names, next to any harmless values of
      definable names, exactly if it is inert. */
  lemma ValueExact(v: string, banned: set<char>)
    requires 'A' !in banned && 'B' !in banned
    ensures Inert(v, banned) <==>
            forall input: string, env: Env ::
              DefinableNames(env, banned) && InertBut(env, v, banned) && !Entangled(input, env)
              ==> Expanded(input, env) == Substituted(input, env)
  {
    hide Inert, Entangled, Expanded, Substituted, DefinableNames;
    if Inert(v, banned) {
      forall input: string, env: Env |
        DefinableNames(env, banned) && InertBut(env, v, banned) && !Entangled(input, env)
        ensures Expanded(input, env) == Substituted(input, env)
      {
        ExpandedIsSubstituted(input, env, banned);
      }
    } else {
      var input, env := NotInertFails(v, banned);
    }
  }
}
