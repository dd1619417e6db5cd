/**
 Placeholder substitution in configuration values (internal/config/envsubst.go): one pass over a
 string for the pattern "${" name "}", and the walk over a nested configuration.
 */
module EnvSubst {
  import opened Prelude

  type Env = map<string, string>

  // ----- What a string consists of

  /** Plain characters, and placeholders by the names they mention. */
  datatype Token = Lit(c: char) | Var(name: string)

  function FirstBrace(s: string): (i: nat)
    ensures i <= |s| && '}' !in s[..i] && (i < |s| ==> s[i] == '}')
  {
    if s == "" || s[0] == '}' then 0
    else
      var i := FirstBrace(s[1..]);
      assert s[..i + 1] == [s[0]] + s[1..][..i];
      i + 1
  }

  /** The name when the pattern matches at the start of s: the characters up to the first closing
      brace, at least one. */
  function MatchName(s: string): (r: Option<string>)
    ensures r.Some? ==> ValidName(r.value) && Text(Var(r.value)) <= s
  {
    if "${" <= s then
      var rest := s[2..];
      var i := FirstBrace(rest);
      if 0 < i < |rest| then
        assert Text(Var(rest[..i])) <= s by { AtBrace(s, i); }
        Some(rest[..i])
      else None
    else None
  }

  lemma AtBrace(s: string, i: nat)
    requires "${" <= s && i + 2 < |s| && s[i + 2] == '}'
    ensures Text(Var(s[2..][..i])) <= s
  {
    assert s[2..][..i] == s[2..i + 2];
    assert "${" + s[2..i + 2] == s[..i + 2];
    assert s[..i + 2] + "}" == s[..i + 3];
  }

  predicate ValidName(name: string) {
    name != "" && '}' !in name
  }

  function Text(t: Token): string {
    match t
    case Lit(c) => [c]
    case Var(name) => "${" + name + "}"
  }

  /** The matches of the pattern from left to right, and the characters between them. */
  function Tokens(s: string): seq<Token> {
    if s == "" then []
    else
      var m := MatchName(s);
      if m.Some? then [Var(m.value)] + Tokens(s[|m.value| + 3..]) else [Lit(s[0])] + Tokens(s[1..])
  }

  function Unparse(ts: seq<Token>): string {
    if ts == [] then "" else Text(ts[0]) + Unparse(ts[1..])
  }

  /** Tokens in which every placeholder is well formed and none starts at a plain character. */
  ghost predicate Leftmost(ts: seq<Token>) {
    forall k :: 0 <= k < |ts| ==> TokenOk(ts, k)
  }

  ghost predicate TokenOk(ts: seq<Token>, k: nat)
    requires k < |ts|
  {
    if ts[k].Var? then ValidName(ts[k].name) else MatchName(Unparse(ts[k..])).None?
  }

  lemma {:induction false} UnparseTokens(s: string)
    ensures Unparse(Tokens(s)) == s
    ensures Leftmost(Tokens(s))
  {
    if s != "" {
      TokensStep(s);
      hide MatchName, Tokens;
      var m := MatchName(s);
      var t := if m.Some? then Var(m.value) else Lit(s[0]);
      var rest := s[|Text(t)|..];
      var ts := Tokens(s);
      UnparseTokens(rest);
      assert ts == [t] + Tokens(rest) && ts[1..] == Tokens(rest);
      assert s == Text(t) + rest;
      forall k | 0 <= k < |ts|
        ensures TokenOk(ts, k)
      {
        if k == 0 {
          assert ts[0..] == ts;
        } else {
          assert TokenOk(Tokens(rest), k - 1);
          assert ts[k..] == Tokens(rest)[k - 1..];
        }
      }
    }
  }

  lemma MatchOfVar(name: string, rest: string)
    requires ValidName(name)
    ensures MatchName(Text(Var(name)) + rest) == Some(name)
  {
    var s := Text(Var(name)) + rest;
    assert s[2..] == name + "}" + rest;
    BraceAfter(name, rest);
    assert (name + "}" + rest)[..|name|] == name;
  }

  lemma {:induction false} BraceAfter(name: string, rest: string)
    requires '}' !in name
    ensures FirstBrace(name + "}" + rest) == |name|
  {
    if name != "" {
      assert (name + "}" + rest)[1..] == name[1..] + "}" + rest;
      BraceAfter(name[1..], rest);
    }
  }

  /** There is one leftmost reading of a string. */
  lemma {:induction false} LeftmostIsUnique(ts: seq<Token>)
    requires Leftmost(ts)
    ensures Tokens(Unparse(ts)) == ts
  {
    if ts != [] {
      var s, rest := Unparse(ts), ts[1..];
      assert Leftmost(rest) by {
        forall k | 0 <= k < |rest|
          ensures TokenOk(rest, k)
        {
          assert TokenOk(ts, k + 1) && ts[k + 1..] == rest[k..];
        }
      }
      LeftmostIsUnique(rest);
      assert TokenOk(ts, 0) && ts[0..] == ts;
      if ts[0].Var? {
        MatchOfVar(ts[0].name, Unparse(rest));
        assert s[|ts[0].name| + 3..] == Unparse(rest);
      } else {
        assert s[1..] == Unparse(rest);
      }
    }
  }

  // ----- Substitution

  /** A set variable gives its value, taken as it is; anything else stays byte for byte. */
  function RenderToken(t: Token, env: Env): string {
    if t.Var? && t.name in env then env[t.name] else Text(t)
  }

  function Render(ts: seq<Token>, env: Env): string {
    if ts == [] then "" else RenderToken(ts[0], env) + Render(ts[1..], env)
  }

  predicate Unset(t: Token, env: Env) {
    t.Var? && t.name !in env
  }

  /** The position of the first placeholder whose variable is not set. */
  function FirstUnset(ts: seq<Token>, env: Env): (k: nat)
    ensures k <= |ts|
    ensures forall j :: 0 <= j < k ==> !Unset(ts[j], env)
    ensures k < |ts| ==> Unset(ts[k], env)
  {
    if ts == [] || Unset(ts[0], env) then 0 else 1 + FirstUnset(ts[1..], env)
  }

  /** What one string becomes, and the name in the error. */
  function Substituted(s: string, env: Env, lenient: bool): (string, Option<string>) {
    var ts := Tokens(s);
    var k := FirstUnset(ts, env);
    if lenient || k == |ts| then (Render(ts, env), None)
    else (Render(ts[..k], env) + Unparse(ts[k..]), Some(ts[k].name))
  }

  /** What the replacement callback returns for a match, and the error afterwards. */
  function Replacement(name: string, env: Env, lenient: bool, errOut: Option<string>): (string, Option<string>) {
    if errOut.Some? then (Text(Var(name)), errOut)
    else if name in env then (env[name], None)
    else (Text(Var(name)), if lenient then None else Some(name))
  }

  /** Output and error after the first k tokens. */
  ghost predicate Done(ts: seq<Token>, k: nat, env: Env, lenient: bool, result: string, errOut: Option<string>)
    requires k <= |ts|
  {
    var stop := if lenient then |ts| else FirstUnset(ts, env);
    if k <= stop then errOut == None && result == Render(ts[..k], env)
    else errOut == Some(ts[stop].name) && result == Render(ts[..stop], env) + Unparse(ts[stop..k])
  }

  lemma DoneStep(ts: seq<Token>, k: nat, env: Env, lenient: bool, result: string, errOut: Option<string>)
    requires k < |ts| && Done(ts, k, env, lenient, result, errOut)
    ensures var (piece, err) := if ts[k].Var? then Replacement(ts[k].name, env, lenient, errOut)
        else (Text(ts[k]), errOut);
      Done(ts, k + 1, env, lenient, result + piece, err)
  {
    var stop := if lenient then |ts| else FirstUnset(ts, env);
    RenderSnoc(ts, k, env);
    if k >= stop {
      UnparseSnoc(ts, stop, k);
      AppendAssoc(Render(ts[..stop], env), Unparse(ts[stop..k]), Text(ts[k]));
      if k == stop {
        assert ts[k..k] == [];
      }
    }
  }

  lemma DoneAll(s: string, env: Env, lenient: bool, result: string, errOut: Option<string>)
    requires Done(Tokens(s), |Tokens(s)|, env, lenient, result, errOut)
    ensures (result, errOut) == Substituted(s, env, lenient)
  {
    var ts := Tokens(s);
    var stop := FirstUnset(ts, env);
    assert ts[..|ts|] == ts && ts[stop..|ts|] == ts[stop..];
  }

  /** The token at the front of a nonempty string, and the rest. */
  lemma TokensStep(s: string)
    requires s != ""
    ensures var m := MatchName(s); var t := if m.Some? then Var(m.value) else Lit(s[0]);
      && |Text(t)| <= |s| && s[..|Text(t)|] == Text(t)
      && Tokens(s) == [t] + Tokens(s[|Text(t)|..])
  {
    hide MatchName;
  }

  /** One left-to-right pass; after the first error the rest is copied. */
  method SubstituteString(s: string, env: Env, lenient: bool) returns (result: string, errOut: Option<string>)
    ensures (result, errOut) == Substituted(s, env, lenient)
  {
    hide MatchName, Tokens, Done, Replacement;
    result, errOut := "", None;
    var pos := 0;
    ghost var ts := Tokens(s);
    ghost var k := 0;
    assert s[0..] == s && ts[0..] == ts;
    NothingDone(ts, env, lenient);
    while pos < |s|
      invariant 0 <= pos <= |s| && k <= |ts|
      invariant Tokens(s[pos..]) == ts[k..]
      invariant Done(ts, k, env, lenient, result, errOut)
      decreases |s| - pos
    {
      var rest := s[pos..];
      TokensStep(rest);
      DoneStep(ts, k, env, lenient, result, errOut);
      assert ts[k] == ts[k..][0] && ts[k + 1..] == ts[k..][1..];
      var m := MatchName(rest);
      if m.None? {
        result := result + [s[pos]];
        assert rest[1..] == s[pos + 1..];
        pos := pos + 1;
      } else {
        var (piece, err) := Replacement(m.value, env, lenient, errOut);
        result := result + piece;
        errOut := err;
        assert rest[|m.value| + 3..] == s[pos + |m.value| + 3..];
        pos := pos + |m.value| + 3;
      }
      k := k + 1;
    }
    EmptyHasNoTokens(s[pos..]);
    DoneAll(s, env, lenient, result, errOut);
  }

  lemma NothingDone(ts: seq<Token>, env: Env, lenient: bool)
    ensures Done(ts, 0, env, lenient, "", None)
  {
  }

  lemma EmptyHasNoTokens(s: string)
    ensures s == "" ==> Tokens(s) == []
  {
  }

  lemma {:induction false} RenderSnoc(ts: seq<Token>, k: nat, env: Env)
    requires k < |ts|
    ensures Render(ts[..k + 1], env) == Render(ts[..k], env) + RenderToken(ts[k], env)
  {
    if k == 0 {
      assert ts[..1] == [ts[0]] && ts[..0] == [] && [ts[0]][1..] == [];
    } else {
      RenderSnoc(ts[1..], k - 1, env);
      assert ts[..k + 1][1..] == ts[1..][..k] && ts[..k][1..] == ts[1..][..k - 1];
      AppendAssoc(RenderToken(ts[0], env), Render(ts[1..][..k - 1], env), RenderToken(ts[k], env));
    }
  }

  lemma {:induction false} UnparseSnoc(ts: seq<Token>, from: nat, k: nat)
    requires from <= |ts| && k < |ts|
    ensures from <= k ==> Unparse(ts[from..k + 1]) == Unparse(ts[from..k]) + Text(ts[k])
    decreases k - from
  {
    if from == k {
      assert ts[k..k + 1] == [ts[k]] && ts[k..k] == [] && [ts[k]][1..] == [];
    } else if from < k {
      UnparseSnoc(ts, from + 1, k);
      assert ts[from..k + 1][1..] == ts[from + 1..k + 1] && ts[from..k][1..] == ts[from + 1..k];
      AppendAssoc(Text(ts[from]), Unparse(ts[from + 1..k]), Text(ts[k]));
    }
  }

  /** Strict mode fails exactly when some placeholder's variable is not set, and names the first such
      placeholder; otherwise both modes give the same string. */
  lemma StrictMode(s: string, env: Env)
    ensures Substituted(s, env, false).1.Some? <==> exists t :: t in Tokens(s) && Unset(t, env)
    ensures Substituted(s, env, false).1.Some? ==>
      exists k :: 0 <= k < |Tokens(s)| && Unset(Tokens(s)[k], env)
          && Substituted(s, env, false).1 == Some(Tokens(s)[k].name)
                  && forall j :: 0 <= j < k ==> !Unset(Tokens(s)[j], env)
    ensures Substituted(s, env, false) == Substituted(s, env, true) <==> forall t :: t in Tokens(s) ==> !Unset(t, env)
    ensures Substituted(s, env, true).1 == None
  {
    var ts := Tokens(s);
    var k := FirstUnset(ts, env);
    if k == |ts| {
      forall t | t in ts
        ensures !Unset(t, env)
      {
        var j :| 0 <= j < |ts| && ts[j] == t;
      }
    } else {
      assert ts[k] in ts;
    }
  }

  /** With no variable set, lenient substitution is the identity. */
  lemma {:induction false} RenderNothing(ts: seq<Token>)
    ensures Render(ts, map[]) == Unparse(ts)
  {
    if ts != [] {
      RenderNothing(ts[1..]);
    }
  }

  lemma LenientIdentity(s: string)
    ensures Substituted(s, map[], true) == (s, None)
  {
    UnparseTokens(s);
    RenderNothing(Tokens(s));
  }

  // ----- The outcome, in strings

  /** The first token decides how the output begins. */
  lemma FirstToken(s: string, t: Token, rest: string, env: Env, lenient: bool)
    requires s == Text(t) + rest && Tokens(s) == [t] + Tokens(rest)
    ensures Substituted(s, env, lenient) ==
            if !lenient && Unset(t, env) then (s, Some(t.name))
            else (RenderToken(t, env) + Substituted(rest, env, lenient).0, Substituted(rest, env, lenient).1)
  {
    hide Tokens, Text, RenderToken;
    var ts, tail := Tokens(s), Tokens(rest);
    assert ts[0] == t && ts[1..] == tail;
    UnparseTokens(s);
    var k := FirstUnset(ts, env);
    if Unset(t, env) {
      assert k == 0 && ts[..0] == [] && ts[0..] == ts;
      assert "" + s == s;
    } else {
      var j := FirstUnset(tail, env);
      assert k == j + 1 && ts[k..] == tail[j..] && ts[..k][1..] == tail[..j];
      if j < |tail| {
        AppendAssoc(RenderToken(t, env), Render(tail[..j], env), Unparse(tail[j..]));
      }
    }
  }

  /** "${" at position i. */
  predicate Opens(s: string, i: nat) {
    i + 1 < |s| && s[i] == '$' && s[i + 1] == '{'
  }

  /** Every "${" is followed by "}" at once, so that it begins no placeholder, whatever follows. */
  predicate Inert(front: string) {
    forall i :: 0 <= i < |front| && Opens(front, i) ==> i + 2 < |front| && front[i + 2] == '}'
  }

  lemma InertHead(front: string, more: string)
    requires front != "" && Inert(front) && (more == "" || more[0] != '{')
    ensures MatchName(front + more).None? && Inert(front[1..])
  {
    var s := front + more;
    if "${" <= s {
      assert s[0] == '$' && s[1] == '{';
      assert Opens(front, 0);
      assert s[2..][0] == front[2];
    }
    forall i | 0 <= i < |front[1..]| && Opens(front[1..], i)
      ensures i + 2 < |front[1..]| && front[1..][i + 2] == '}'
    {
      assert Opens(front, i + 1);
    }
  }

  lemma EmptyFront(s: string)
    ensures "" + s == s
  {
  }

  lemma LeadingPlaceholder(s: string, name: string, rest: string, env: Env, lenient: bool)
    requires s == "${" + name + "}" + rest && ValidName(name)
    ensures var (tail, err) := Substituted(rest, env, lenient);
      Substituted(s, env, lenient) ==
      if name in env then (env[name] + tail, err)
      else if lenient then ("${" + name + "}" + tail, err)
      else (s, Some(name))
  {
    hide MatchName, Substituted, ValidName;
    assert s == Text(Var(name)) + rest;
    MatchOfVar(name, rest);
    TokensStep(s);
    assert s[|name| + 3..] == rest;
    FirstToken(s, Var(name), rest, env, lenient);
  }

  /** The leftmost placeholder: what stands before it is kept; if its variable is set, its value follows
      as it is, and then what the rest becomes; if not, it stays in lenient mode, and in strict mode it
      is named in the error and everything from it on stays. */
  lemma {:induction false} LeftmostPlaceholder(front: string, name: string, rest: string, env: Env, lenient: bool)
    requires Inert(front) && ValidName(name)
    ensures var s, (tail, err) := front + ("${" + name + "}" + rest), Substituted(rest, env, lenient);
      Substituted(s, env, lenient) ==
      if name in env then (front + (env[name] + tail), err)
      else if lenient then (front + ("${" + name + "}" + tail), err)
      else (s, Some(name))
  {
    var more := "${" + name + "}" + rest;
    var s := front + more;
    hide MatchName, Substituted, Inert, ValidName;
    if front == "" {
      LeadingPlaceholder(more, name, rest, env, lenient);
      var tail := Substituted(rest, env, lenient).0;
      EmptyFront("${" + name + "}" + tail);
      EmptyFront(more);
      if name in env {
        EmptyFront(env[name] + tail);
      }
    } else {
      assert more[0] != '{';
      InertHead(front, more);
      TokensStep(s);
      assert s[1..] == front[1..] + more && s == [front[0]] + (front[1..] + more);
      FirstToken(s, Lit(front[0]), front[1..] + more, env, lenient);
      LeftmostPlaceholder(front[1..], name, rest, env, lenient);
      var h, f, tail := [front[0]], front[1..], Substituted(rest, env, lenient).0;
      assert front == h + f;
      AppendAssoc(h, f, more);
      AppendAssoc(h, f, "${" + name + "}" + tail);
      if name in env {
        AppendAssoc(h, f, env[name] + tail);
      }
    }
  }

  /** No placeholder at all: every "${" is followed by "}" at once, or by none. */
  predicate Plain(s: string) {
    forall i :: 0 <= i < |s| && Opens(s, i) ==> '}' !in s[i + 2..] || s[i + 2] == '}'
  }

  lemma PlainHead(s: string)
    requires s != "" && Plain(s)
    ensures MatchName(s).None? && Plain(s[1..])
  {
    if "${" <= s {
      assert s[0] == '$' && s[1] == '{';
      assert Opens(s, 0);
      var k := FirstBrace(s[2..]);
      assert k < |s[2..]| ==> s[2..][k] in s[2..];
    }
    forall i | 0 <= i < |s[1..]| && Opens(s[1..], i)
      ensures '}' !in s[1..][i + 2..] || s[1..][i + 2] == '}'
    {
      assert Opens(s, i + 1);
      assert s[1..][i + 2..] == s[i + 3..];
    }
  }

  /** A string without a placeholder is itself the result. */
  lemma {:induction false} PlainStays(s: string, env: Env, lenient: bool)
    requires Plain(s)
    ensures Substituted(s, env, lenient) == (s, None)
  {
    if s != "" {
      PlainHead(s);
      hide MatchName, Substituted, Plain;
      TokensStep(s);
      FirstToken(s, Lit(s[0]), s[1..], env, lenient);
      PlainStays(s[1..], env, lenient);
    }
  }

  /** Every string is of one of the two kinds. */
  lemma {:induction false} PlainOrPlaceholder(s: string) returns (front: string, name: string, rest: string)
    ensures Plain(s) || (Inert(front) && ValidName(name) && s == front + ("${" + name + "}" + rest))
  {
    if s == "" {
      front, name, rest := "", "", "";
    } else if MatchName(s).Some? {
      name := MatchName(s).value;
      front, rest := "", s[|name| + 3..];
      assert s == Text(Var(name)) + rest;
    } else {
      var tail;
      tail, name, rest := PlainOrPlaceholder(s[1..]);
      front := [s[0]] + tail;
      if Plain(s[1..]) {
        PlainCons(s);
      } else {
        var more := "${" + name + "}" + rest;
        assert s == front + more;
        InertCons(s, front, tail, more);
      }
    }
  }

  lemma PlainCons(s: string)
    requires s != "" && MatchName(s).None? && Plain(s[1..])
    ensures Plain(s)
  {
    forall i | 0 <= i < |s| && Opens(s, i)
      ensures '}' !in s[i + 2..] || s[i + 2] == '}'
    {
      if i == 0 {
        assert "${" <= s;
        var k := FirstBrace(s[2..]);
      } else {
        assert Opens(s[1..], i - 1) && s[1..][i - 1 + 2..] == s[i + 2..];
      }
    }
  }

  lemma InertCons(s: string, front: string, tail: string, more: string)
    requires s != "" && MatchName(s).None? && s == front + more && front == [s[0]] + tail
    requires Inert(tail) && more != "" && more[0] == '$' && '}' in more
    ensures Inert(front)
  {
    forall i | 0 <= i < |front| && Opens(front, i)
      ensures i + 2 < |front| && front[i + 2] == '}'
    {
      if i == 0 {
        assert "${" <= s;
        var k := FirstBrace(s[2..]);
        var j :| 0 <= j < |more| && more[j] == '}';
        assert s[|front| + j] == '}' && s[2..][|front| + j - 2] == '}';
      } else {
        assert Opens(tail, i - 1);
      }
    }
  }

  // ----- Nested configurations

  /** What reflection sees; Fixed stands for numbers, booleans and fields that cannot be set. */
  datatype Value =
    | Nil | Ptr(elem: Value) | Struct(fields: seq<Value>) | Slice(elems: seq<Value>) | Str(s: string) | Fixed(id: int)

  /** The configuration after the walk, and the first error; what was set before it stays set. */
  function Resolve(v: Value, env: Env, lenient: bool): (Value, Option<string>)
    decreases v, 1
  {
    match v
    case Nil => (v, None)
    case Ptr(elem) => var (e, err) := Resolve(elem, env, lenient); (Ptr(e), err)
    case Struct(fields) => var (fs, err) := ResolveEach(fields, env, lenient); (Struct(fs), err)
    case Slice(elems) => var (es, err) := ResolveEach(elems, env, lenient); (Slice(es), err)
    case Str(s) =>
      var (r, err) := Substituted(s, env, lenient);
      if err.Some? then (v, err) else (Str(r), None)
    case Fixed(_) => (v, None)
  }

  function ResolveEach(vs: seq<Value>, env: Env, lenient: bool): (seq<Value>, Option<string>)
    decreases vs, 0
  {
    if vs == [] then (vs, None)
    else
      var (head, err) := Resolve(vs[0], env, lenient);
      if err.Some? then ([head] + vs[1..], err)
      else
        var (tail, err2) := ResolveEach(vs[1..], env, lenient);
        ([head] + tail, err2)
  }

  /** The strings of a configuration in the order of the walk. */
  function Strings(v: Value): seq<string>
    decreases v, 1
  {
    match v
    case Ptr(elem) => Strings(elem)
    case Struct(fields) => StringsOfEach(fields)
    case Slice(elems) => StringsOfEach(elems)
    case Str(s) => [s]
    case _ => []
  }

  function StringsOfEach(vs: seq<Value>): seq<string>
    decreases vs, 0
  {
    if vs == [] then [] else Strings(vs[0]) + StringsOfEach(vs[1..])
  }

  /** The values differ at most in their strings. */
  predicate SameBesides(a: Value, b: Value)
    decreases a, 1
  {
    match (a, b)
    case (Ptr(x), Ptr(y)) => SameBesides(x, y)
    case (Struct(xs), Struct(ys)) => EachSameBesides(xs, ys)
    case (Slice(xs), Slice(ys)) => EachSameBesides(xs, ys)
    case (Str(_), Str(_)) => true
    case _ => a == b
  }

  predicate EachSameBesides(xs: seq<Value>, ys: seq<Value>)
    decreases xs, 0
  {
    if xs == [] || ys == [] then xs == ys
    else SameBesides(xs[0], ys[0]) && EachSameBesides(xs[1..], ys[1..])
  }

  lemma {:induction false} SameAsItself(v: Value)
    ensures SameBesides(v, v)
    decreases v, 1
  {
    match v
    case Ptr(elem) => SameAsItself(elem);
    case Struct(fields) => EachSameAsItself(fields);
    case Slice(elems) => EachSameAsItself(elems);
    case _ =>
  }

  lemma {:induction false} EachSameAsItself(vs: seq<Value>)
    ensures EachSameBesides(vs, vs)
    decreases vs, 0
  {
    if vs != [] {
      SameAsItself(vs[0]);
      EachSameAsItself(vs[1..]);
    }
  }

  /** Strings substituted one after the other, up to the first error. */
  function SubstituteEach(ss: seq<string>, env: Env, lenient: bool): (seq<string>, Option<string>) {
    if ss == [] then ([], None)
    else
      var (r, err) := Substituted(ss[0], env, lenient);
      if err.Some? then (ss, err)
      else
        var (rest, err2) := SubstituteEach(ss[1..], env, lenient);
        ([r] + rest, err2)
  }

  lemma {:induction false} SubstituteEachAppend(a: seq<string>, b: seq<string>, env: Env, lenient: bool)
    ensures var (ra, ea) := SubstituteEach(a, env, lenient);
            var (rb, eb) := SubstituteEach(b, env, lenient);
      SubstituteEach(a + b, env, lenient) == if ea.Some? then (ra + b, ea) else (ra + rb, eb)
  {
    if a == [] {
      assert a + b == b;
      assert [] + SubstituteEach(b, env, lenient).0 == SubstituteEach(b, env, lenient).0;
    } else {
      assert (a + b)[1..] == a[1..] + b;
      SubstituteEachAppend(a[1..], b, env, lenient);
      var (r, err) := Substituted(a[0], env, lenient);
      var (ra, ea) := SubstituteEach(a[1..], env, lenient);
      if ea.Some? {
        AppendAssoc([r], ra, b);
      } else {
        AppendAssoc([r], ra, SubstituteEach(b, env, lenient).0);
      }
    }
  }

  /** However deeply the strings are nested, the walk treats them as one flat list: it substitutes
      them in order until the first that fails, and leaves everything else alone. */
  lemma {:induction false} ResolveIsFlat(v: Value, env: Env, lenient: bool)
    ensures var (v', err) := Resolve(v, env, lenient);
      (Strings(v'), err) == SubstituteEach(Strings(v), env, lenient) && SameBesides(v, v')
    decreases v, 1
  {
    match v
    case Ptr(elem) => ResolveIsFlat(elem, env, lenient);
    case Struct(fields) => ResolveEachIsFlat(fields, env, lenient);
    case Slice(elems) => ResolveEachIsFlat(elems, env, lenient);
    case Str(s) =>
      assert [s][1..] == [] && SubstituteEach([s][1..], env, lenient) == ([], None);
      assert [Substituted(s, env, lenient).0] + [] == [Substituted(s, env, lenient).0];
    case _ =>
  }

  lemma {:induction false} ResolveEachIsFlat(vs: seq<Value>, env: Env, lenient: bool)
    ensures var (vs', err) := ResolveEach(vs, env, lenient);
      (StringsOfEach(vs'), err) == SubstituteEach(StringsOfEach(vs), env, lenient) && EachSameBesides(vs, vs')
    decreases vs, 0
  {
    if vs != [] {
      ResolveIsFlat(vs[0], env, lenient);
      ResolveEachIsFlat(vs[1..], env, lenient);
      EachSameAsItself(vs[1..]);
      SubstituteEachAppend(Strings(vs[0]), StringsOfEach(vs[1..]), env, lenient);
      var (vs', err) := ResolveEach(vs, env, lenient);
      assert vs'[1..] == if Resolve(vs[0], env, lenient).1.Some? then vs[1..] else ResolveEach(vs[1..], env, lenient).0;
    }
  }

  /** What stands at a position of a configuration: behind a pointer at 0, in a struct or slice by index. */
  function Inside(v: Value, pos: seq<nat>): Option<Value>
    decreases pos
  {
    if pos == [] then Some(v)
    else match v
      case Ptr(elem) => if pos[0] == 0 then Inside(elem, pos[1..]) else None
      case Struct(fields) => if pos[0] < |fields| then Inside(fields[pos[0]], pos[1..]) else None
      case Slice(elems) => if pos[0] < |elems| then Inside(elems[pos[0]], pos[1..]) else None
      case _ => None
  }

  lemma {:induction false} ResolveEachAt(vs: seq<Value>, env: Env, lenient: bool, i: nat)
    requires ResolveEach(vs, env, lenient).1 == None && i < |vs|
    ensures Resolve(vs[i], env, lenient).1 == None
    ensures i < |ResolveEach(vs, env, lenient).0|
    ensures ResolveEach(vs, env, lenient).0[i] == Resolve(vs[i], env, lenient).0
  {
    if i > 0 {
      ResolveEachAt(vs[1..], env, lenient, i - 1);
    }
  }

  /** After a walk without an error every string, wherever it stands, is what its substitution gives. */
  lemma {:induction false} ResolveReaches(v: Value, env: Env, lenient: bool, pos: seq<nat>, s: string)
    requires Resolve(v, env, lenient).1 == None && Inside(v, pos) == Some(Str(s))
    ensures Substituted(s, env, lenient).1 == None
    ensures Inside(Resolve(v, env, lenient).0, pos) == Some(Str(Substituted(s, env, lenient).0))
    decreases pos
  {
    hide Substituted;
    if pos != [] {
      match v
      case Ptr(elem) => ResolveReaches(elem, env, lenient, pos[1..], s);
      case Struct(fields) =>
        ResolveEachAt(fields, env, lenient, pos[0]);
        ResolveReaches(fields[pos[0]], env, lenient, pos[1..], s);
      case Slice(elems) =>
        ResolveEachAt(elems, env, lenient, pos[0]);
        ResolveReaches(elems[pos[0]], env, lenient, pos[1..], s);
      case _ =>
    }
  }
}
