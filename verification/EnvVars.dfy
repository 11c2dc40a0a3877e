/** `${VAR}` substitution in configuration values: leftmost first, rescanning from the start after every replacement. */
module EnvVars {
  import opened Bytes

  type Env = map<string, string>

  /** `std::env::var(name).unwrap_or_default()`. */
  function Lookup(env: Env, name: string): string {
    if name in env then env[name] else ""
  }

  predicate OpenAt(s: string, i: nat) { i + 2 <= |s| && s[i] == '$' && s[i + 1] == '{' }

  /** `find("${")` from `from` on. */
  function FindOpen(s: string, from: nat): (r: Option<nat>)
    ensures r.Some? ==> from <= r.value && OpenAt(s, r.value) && forall k :: from <= k < r.value ==> !OpenAt(s, k)
    ensures r.None? ==> forall k :: from <= k ==> !OpenAt(s, k)
    decreases |s| - from
  {
    if from + 2 > |s| then None else if OpenAt(s, from) then Some(from) else FindOpen(s, from + 1)
  }

  /** `find('}')` from `from` on. */
  function FindClose(s: string, from: nat): (r: Option<nat>)
    ensures r.Some? ==> from <= r.value < |s| && s[r.value] == '}' && forall k :: from <= k < r.value ==> s[k] != '}'
    ensures r.None? ==> forall k :: from <= k < |s| ==> s[k] != '}'
    decreases |s| - from
  {
    if from >= |s| then None else if s[from] == '}' then Some(from) else FindClose(s, from + 1)
  }

  /** One replacement, if there is one to make. */
  function Round(s: string, env: Env): Option<string> {
    match FindOpen(s, 0)
    case None => None
    case Some(start) =>
      match FindClose(s, start + 2)
      case None => None
      case Some(end) => Some(s[..start] + Lookup(env, s[start + 2..end]) + s[end + 1..])
  }

  /** The result, if at most `fuel` replacements reach it. */
  function Expand(s: string, env: Env, fuel: nat): Option<string>
    decreases fuel
  {
    match Round(s, env)
    case None => Some(s)
    case Some(t) => if fuel == 0 then None else Expand(t, env, fuel - 1)
  }

  /** `replace_env_vars`; the original has no bound, `None` says that `fuel` rounds were not enough. */
  method ReplaceEnvVars(s: string, env: Env, fuel: nat) returns (r: Option<string>)
    ensures r == Expand(s, env, fuel)
  {
    hide FindOpen, FindClose, Lookup;
    var result, left := s, fuel;
    while true
      invariant Expand(result, env, left) == Expand(s, env, fuel)
      decreases left
    {
      var start := FindOpen(result, 0);
      if start.None? { break; }
      var end := FindClose(result, start.value + 2);
      if end.None? { break; }
      if left == 0 { return None; }
      var value := Lookup(env, result[start.value + 2..end.value]);
      assert Round(result, env) == Some(result[..start.value] + value + result[end.value + 1..]);
      result := result[..start.value] + value + result[end.value + 1..];
      left := left - 1;
    }
    return Some(result);
  }

  // ---------------------------------------------------------------- termination

  function Count(s: string, ch: char): nat {
    if s == [] then 0 else Count(s[1..], ch) + (if s[0] == ch then 1 else 0)
  }

  lemma {:induction false} CountAppend(a: string, b: string, ch: char)
    ensures Count(a + b, ch) == Count(a, ch) + Count(b, ch)
  {
    if a == [] {
      assert a + b == b;
    } else {
      assert (a + b)[1..] == a[1..] + b;
      CountAppend(a[1..], b, ch);
    }
  }

  lemma {:induction false} CountNone(s: string, ch: char)
    requires ch !in s
    ensures Count(s, ch) == 0
  {
    if s != [] { CountNone(s[1..], ch); }
  }

  lemma {:induction false} CountSome(s: string, ch: char)
    requires ch in s
    ensures Count(s, ch) >= 1
  {
    if s[0] != ch { CountSome(s[1..], ch); }
  }

  lemma ThreeParts(s: string, i: nat, j: nat)
    requires i <= j <= |s|
    ensures s == s[..i] + s[i..j] + s[j..]
  {
  }

  const MARKS: set<char> := {'$', '{', '}'}

  /** Replacing a reference removes its own `$`, `{` and `}`, whatever new `${` the pieces form when joined. */
  lemma RoundDrops(s: string, env: Env, ch: char)
    requires Round(s, env).Some?
    requires ch in MARKS && forall v :: v in env.Values ==> ch !in v
    ensures Count(Round(s, env).value, ch) < Count(s, ch)
  {
    var start := FindOpen(s, 0).value;
    var end := FindClose(s, start + 2).value;
    var value := Lookup(env, s[start + 2..end]);
    assert ch !in value by {
      if s[start + 2..end] in env { assert env[s[start + 2..end]] in env.Values; }
    }
    var a, b, c := s[..start], s[start..end + 1], s[end + 1..];
    ThreeParts(s, start, end + 1);
    assert b[0] == '$' && b[1] == '{' && b[|b| - 1] == '}';
    CountSome(b, ch);
    CountNone(value, ch);
    hide Count, FindOpen, FindClose;
    CountAppend(a, value, ch);
    CountAppend(a + value, c, ch);
    CountAppend(a, b, ch);
    CountAppend(a + b, c, ch);
  }

  /**
   If `$`, `{` or `}` occurs in no value, the loop ends after at most as many rounds as the text has of that character.
  */
  lemma {:induction false} Terminates(s: string, env: Env, ch: char, fuel: nat)
    requires ch in MARKS && forall v :: v in env.Values ==> ch !in v
    requires Count(s, ch) <= fuel
    ensures Expand(s, env, fuel).Some?
    decreases fuel
  {
    match Round(s, env)
    case None =>
    case Some(t) =>
      RoundDrops(s, env, ch);
      Terminates(t, env, ch, fuel - 1);
  }

  /** More rounds never change a result. */
  lemma {:induction false} FuelIrrelevant(s: string, env: Env, fuel: nat, more: nat)
    requires Expand(s, env, fuel).Some? && fuel <= more
    ensures Expand(s, env, more) == Expand(s, env, fuel)
    decreases fuel
  {
    match Round(s, env)
    case None =>
    case Some(t) => FuelIrrelevant(t, env, fuel - 1, more - 1);
  }

  // ---------------------------------------------------------------- results

  /** At the end there is no `${`, or no closing brace after the first one. */
  lemma {:induction false} ResultShape(s: string, env: Env, fuel: nat)
    requires Expand(s, env, fuel).Some?
    ensures var r := Expand(s, env, fuel).value;
            match FindOpen(r, 0)
            case None => forall k: nat :: !OpenAt(r, k)
            case Some(start) => forall k :: start + 2 <= k < |r| ==> r[k] != '}'
    decreases fuel
  {
    match Round(s, env)
    case None =>
    case Some(t) => ResultShape(t, env, fuel - 1);
  }

  lemma PlainUnchanged(s: string, env: Env, fuel: nat)
    requires forall k: nat :: !OpenAt(s, k)
    ensures Expand(s, env, fuel) == Some(s)
  {
  }

  /** A text as its author means it. */
  datatype Piece = Lit(text: string) | Var(name: string)

  function Render(t: seq<Piece>): string {
    if t == [] then []
    else (match t[0] case Lit(x) => x case Var(n) => "${" + n + "}") + Render(t[1..])
  }

  function Value(p: Piece, env: Env): string { if p.Lit? then p.text else Lookup(env, p.name) }

  function Meaning(t: seq<Piece>, env: Env): string {
    if t == [] then [] else Value(t[0], env) + Meaning(t[1..], env)
  }

  function Vars(t: seq<Piece>): nat {
    if t == [] then 0 else Vars(t[1..]) + (if t[0].Var? then 1 else 0)
  }

  predicate NoOpen(s: string) { forall k: nat :: k < |s| ==> !OpenAt(s, k) }

  lemma NoOpenPrefix(a: string, b: string)
    requires NoOpen(a + b)
    ensures NoOpen(a)
  {
    forall k: nat | k < |a|
      ensures !OpenAt(a, k)
    {
      assert !OpenAt(a + b, k);
    }
  }

  lemma {:induction false} FindOpenIs(s: string, from: nat, at: nat)
    requires from <= at && OpenAt(s, at) && forall k :: from <= k < at ==> !OpenAt(s, k)
    ensures FindOpen(s, from) == Some(at)
    decreases at - from
  {
    if from < at { FindOpenIs(s, from + 1, at); }
  }

  lemma {:induction false} FindCloseIs(s: string, from: nat, at: nat)
    requires from <= at < |s| && s[at] == '}' && forall k :: from <= k < at ==> s[k] != '}'
    ensures FindClose(s, from) == Some(at)
    decreases at - from
  {
    if from < at { FindCloseIs(s, from + 1, at); }
  }

  /** The leftmost reference after text that holds no `${`. */
  lemma RoundAt(done: string, name: string, rest: string, env: Env)
    requires NoOpen(done) && '}' !in name
    ensures Round(done + ("${" + name + "}") + rest, env) == Some(done + Lookup(env, name) + rest)
  {
    var s := done + ("${" + name + "}") + rest;
    var start, end := |done|, |done| + 2 + |name|;
    assert s[start] == '$' && s[start + 1] == '{' && s[end] == '}';
    forall k | 0 <= k < start
      ensures !OpenAt(s, k)
    {
      assert !OpenAt(done, k) && s[k] == done[k];
      if k + 1 < start { assert s[k + 1] == done[k + 1]; }
    }
    FindOpenIs(s, 0, start);
    forall k | start + 2 <= k < end
      ensures s[k] != '}'
    {
      assert s[k] == name[k - start - 2];
    }
    FindCloseIs(s, start + 2, end);
    assert s[..start] == done && s[start + 2..end] == name && s[end + 1..] == rest;
  }

  /** The leftmost reference gives way to the value of its variable, and disappears if that is not set. */
  lemma SetOrUnset(done: string, name: string, rest: string, env: Env)
    requires NoOpen(done) && '}' !in name
    ensures Round(done + ("${" + name + "}") + rest, env) ==
            Some(if name in env then done + env[name] + rest else done + rest)
  {
    RoundAt(done, name, rest, env);
    assert done + "" == done;
  }

  lemma Assoc(a: string, b: string, c: string)
    ensures a + (b + c) == a + b + c
  {
  }

  lemma ExpandStep(s: string, t: string, env: Env, fuel: nat)
    requires Round(s, env) == Some(t)
    ensures Expand(s, env, fuel + 1) == Expand(t, env, fuel)
  {
  }

  /** What precedes the last reference; nothing if there is none. */
  function BeforeLast(t: seq<Piece>): seq<Piece> {
    if t == [] || Vars(t[1..]) == 0 then [] else [t[0]] + BeforeLast(t[1..])
  }

  lemma {:induction false} NoVarsMeans(t: seq<Piece>, env: Env)
    requires Vars(t) == 0
    ensures Render(t) == Meaning(t, env)
  {
    if t != [] { NoVarsMeans(t[1..], env); }
  }

  lemma MeaningSnoc(p: Piece, t: seq<Piece>, env: Env)
    ensures Meaning([p] + t, env) == Value(p, env) + Meaning(t, env)
  {
    assert ([p] + t)[1..] == t;
  }

  /** With no `${` before the last reference, every reference is replaced in turn, and the loop goes on from there. */
  lemma {:induction false} ExpandFrom(done: string, t: seq<Piece>, env: Env, more: nat)
    requires NoOpen(done + Meaning(BeforeLast(t), env))
    requires forall p :: p in t && p.Var? ==> '}' !in p.name
    ensures Expand(done + Render(t), env, Vars(t) + more) == Expand(done + Meaning(t, env), env, more)
    decreases |t|
  {
    hide Round, NoOpen, Expand, Lookup;
    if Vars(t) == 0 {
      NoVarsMeans(t, env);
    } else {
      var rest := t[1..];
      var back := Meaning(BeforeLast(rest), env);
      MeaningSnoc(t[0], BeforeLast(rest), env);
      match t[0]
      case Lit(x) =>
        Assoc(done, x, back);
        Assoc(done, x, Meaning(rest, env));
        Assoc(done, x, Render(rest));
        ExpandFrom(done + x, rest, env, more);
      case Var(n) =>
        var v := Lookup(env, n);
        NoOpenPrefix(done, Meaning(BeforeLast(t), env));
        Assoc(done, v, Meaning(rest, env));
        Assoc(done, "${" + n + "}", Render(rest));
        RoundAt(done, n, Render(rest), env);
        ExpandStep(done + Render(t), done + v + Render(rest), env, Vars(rest) + more);
        if Vars(rest) == 0 {
          NoVarsMeans(rest, env);
        } else {
          Assoc(done, v, back);
          ExpandFrom(done + v, rest, env, more);
        }
    }
  }

  lemma NoReference(s: string, env: Env, fuel: nat)
    requires NoOpen(s)
    ensures Expand(s, env, fuel) == Some(s)
  {
  }

  lemma FinalIff(s: string, env: Env, fuel: nat)
    ensures Expand(s, env, fuel) == Some(s) <==> Round(s, env).None?
  {
    if Expand(s, env, fuel).Some? { ExpandIsFinal(s, env, fuel); }
  }

  lemma {:induction false} ExpandIsFinal(s: string, env: Env, fuel: nat)
    requires Expand(s, env, fuel).Some?
    ensures Round(Expand(s, env, fuel).value, env).None?
    decreases fuel
  {
    match Round(s, env)
    case None =>
    case Some(t) => ExpandIsFinal(t, env, fuel - 1);
  }

  /**
   For a text in whose meaning no `${` stands before the last reference (a name ends at its first closing brace, so it
   holds none): every reference is replaced by its value, once, and nothing else changes, exactly when the text so
   obtained holds no further reference, that is no `${` with a closing brace after it.
  */
  lemma ExpandsToMeaning(t: seq<Piece>, env: Env, fuel: nat)
    requires NoOpen(Meaning(BeforeLast(t), env)) && Vars(t) <= fuel
    requires forall p :: p in t && p.Var? ==> '}' !in p.name
    ensures Expand(Render(t), env, fuel) == Some(Meaning(t, env)) <==> Round(Meaning(t, env), env).None?
  {
    hide Round, Expand, NoOpen;
    var m := Meaning(t, env);
    assert [] + m == m && [] + Render(t) == Render(t);
    assert [] + Meaning(BeforeLast(t), env) == Meaning(BeforeLast(t), env);
    ExpandFrom([], t, env, fuel - Vars(t));
    FinalIff(m, env, fuel - Vars(t));
  }

  lemma RoundAlone(done: string, name: string, env: Env)
    requires NoOpen(done) && '}' !in name
    ensures Round(done + "${" + name + "}", env) == Some(done + Lookup(env, name))
  {
    RoundAt(done, name, "", env);
    assert done + ("${" + name + "}") + "" == done + "${" + name + "}";
    assert done + Lookup(env, name) + "" == done + Lookup(env, name);
  }

  lemma NothingBefore(s: string)
    ensures "" + s == s && NoOpen("")
  {
  }

  /** A text that is one reference. */
  lemma ReferenceRound(name: string, env: Env)
    requires '}' !in name
    ensures Round("${" + name + "}", env) == Some(Lookup(env, name))
  {
    hide Round, NoOpen, Lookup;
    NothingBefore("${");
    NothingBefore(Lookup(env, name));
    RoundAlone("", name, env);
  }

  lemma DollarThenVar(name: string, env: Env)
    ensures Render([Lit("$"), Var(name)]) == "$" + "${" + name + "}"
    ensures Meaning([Lit("$"), Var(name)], env) == "$" + Lookup(env, name)
  {
    var t, one := [Lit("$"), Var(name)], [Var(name)];
    assert t[1..] == one && one[1..] == [];
    assert Render(one) == "${" + name + "}" + Render(one[1..]) == "${" + name + "}";
    assert Meaning(one, env) == Lookup(env, name) + Meaning(one[1..], env) == Lookup(env, name);
    assert "$" + ("${" + name + "}") == "$" + "${" + name + "}";
  }

  /** Otherwise a value can complete a `${` and be expanded again: `$${A}` with A = `{B}` gives B's value. */
  lemma ValueCanFormReference(env: Env)
    requires Lookup(env, "A") == "{B}" && NoOpen(Lookup(env, "B"))
    ensures Expand(Render([Lit("$"), Var("A")]), env, 2) == Some(Lookup(env, "B"))
    ensures Meaning([Lit("$"), Var("A")], env) == "$" + "{B}"
  {
    DollarThenVar("A", env);
    assert NoOpen("$");
    assert "$" + "{B}" == "${" + "B" + "}";
    hide Round, NoOpen, Expand, Render, Meaning, Lookup;
    var b := Lookup(env, "B");
    RoundAlone("$", "A", env);
    ReferenceRound("B", env);
    ExpandStep("$" + "${" + "A" + "}", "$" + "{B}", env, 1);
    ExpandStep("$" + "{B}", b, env, 0);
    NoReference(b, env, 0);
  }

  // ---------------------------------------------------------------- when the loop ends

  lemma {:induction false} FixedRoundLoops(s: string, env: Env, fuel: nat)
    requires Round(s, env) == Some(s)
    ensures Expand(s, env, fuel).None?
  {
    hide Round;
    if fuel > 0 { FixedRoundLoops(s, env, fuel - 1); }
  }

  /** A value that refers to itself never ends, under any name that can be referred to. */
  lemma SelfReferenceLoops(name: string, fuel: nat)
    requires '}' !in name
    ensures Expand("${" + name + "}", map[name := "${" + name + "}"], fuel).None?
  {
    var s := "${" + name + "}";
    var env := map[name := s];
    assert Lookup(env, name) == s;
    hide Round, Expand, Lookup;
    ReferenceRound(name, env);
    FixedRoundLoops(s, env, fuel);
  }

  ghost predicate Ends(s: string, env: Env) { exists fuel: nat :: Expand(s, env, fuel).Some? }

  predicate ValuesOver(env: Env, allowed: set<char>) {
    forall v :: v in env.Values ==> forall ch :: ch in v ==> ch in allowed
  }

  ghost predicate AlwaysEnds(allowed: set<char>) {
    forall s: string, env: Env :: ValuesOver(env, allowed) ==> Ends(s, env)
  }

  /**
   Exactly when the characters allowed in values guarantee that every text ends: when `$`, `{` or `}` is not among them.
   Three characters suffice to loop: the value `${$}` of a variable named `$`.
  */
  lemma TerminatesIff(allowed: set<char>)
    ensures AlwaysEnds(allowed) <==> !(MARKS <= allowed)
  {
    if MARKS <= allowed {
      var s := "${" + "$" + "}";
      var env := map["$" := s];
      assert ValuesOver(env, allowed);
      forall fuel: nat
        ensures Expand(s, env, fuel).None?
      {
        SelfReferenceLoops("$", fuel);
      }
      assert !Ends(s, env);
    } else {
      var ch :| ch in MARKS && ch !in allowed;
      forall s: string, env: Env | ValuesOver(env, allowed)
        ensures Ends(s, env)
      {
        Terminates(s, env, ch, Count(s, ch));
      }
    }
  }
}
