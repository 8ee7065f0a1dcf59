/** The `${name}` substitution engine. Both the 2.0 interpreter and the second
    single-file interpreter search for the pattern `\$\{([^}]+)\}` again and again,
    each time from the end of the previous match, copying the text in between. The
    scan is written here directly; the two interpreters differ only in how a name is
    resolved, which is a parameter. */
module Placeholders {
  import opened Wrappers
  import opened Text

  /** A placeholder at the very start of a string: its name and the text after it. */
  datatype Match = Match(name: string, rest: string)

  /** A placeholder name: one or more characters other than `}`. */
  predicate IsPlaceholderName(name: string) {
    name != [] && '}' !in name
  }

  /** The leftmost match of `\$\{([^}]+)\}` if it starts at index 0. Since `[^}]+`
      cannot cross a `}`, the name runs to the first `}` after the `${`, and that
      run must not be empty. */
  function PlaceholderAt(s: string): (m: Option<Match>)
    ensures m.Some? ==> IsPlaceholderName(m.value.name)
    ensures m.Some? ==> s == "${" + m.value.name + "}" + m.value.rest
  {
    if |s| < 2 || s[0] != '$' || s[1] != '{' then None
    else match IndexOf(s[2..], '}')
      case None => None
      case Some(j) =>
        if j == 0 then None
        else
          SplitAtBrace(s, j);
          Some(Match(s[2..2 + j], s[3 + j..]))
  }

  lemma SplitAtBrace(s: string, j: nat)
    requires 3 + j <= |s| && s[0] == '$' && s[1] == '{' && s[2 + j] == '}'
    ensures s == "${" + s[2..2 + j] + "}" + s[3 + j..]
  {
    assert s[..2] == "${" && s[2 + j..3 + j] == "}";
    assert s == s[..2] + s[2..2 + j] + s[2 + j..3 + j] + s[3 + j..];
  }

  /** A string that opens with a well-formed placeholder is recognised as exactly that one. */
  lemma PlaceholderAtExact(name: string, rest: string)
    requires IsPlaceholderName(name)
    ensures PlaceholderAt("${" + name + "}" + rest) == Some(Match(name, rest))
  {
    var s := "${" + name + "}" + rest;
    assert s[2..] == name + "}" + rest;
    assert name + "}" + rest == name + ['}'] + rest;
    IndexOfAfter(name, '}', rest);
    assert IndexOf(s[2..], '}') == Some(|name|);
    assert s[2..2 + |name|] == name;
    assert s[3 + |name|..] == rest;
  }

  function Prepend(t: string, r: Result<string, string>): Result<string, string> {
    match r
    case Success(s) => Success(t + s)
    case Failure(n) => Failure(n)
  }

  /** Replaces every placeholder left to right by the value `resolve` gives its name,
      copying all other text; an inserted value is never scanned again. Fails with
      the first name `resolve` does not know. */
  function Expand(s: string, resolve: string -> Option<string>): (r: Result<string, string>)
    ensures r.Failure? ==> resolve(r.error).None?
    ensures (forall n :: resolve(n).Some?) ==> r.Success?
    decreases |s|
  {
    if s == [] then Success([])
    else match PlaceholderAt(s)
      case Some(m) =>
        (match resolve(m.name)
         case None => Failure(m.name)
         case Some(v) => Prepend(v, Expand(m.rest, resolve)))
      case None => Prepend([s[0]], Expand(s[1..], resolve))
  }

  /** A string in which `${` never occurs comes back unchanged. */
  lemma {:induction false} ExpandNoPlaceholder(s: string, resolve: string -> Option<string>)
    requires Find(s, "${") == None
    ensures Expand(s, resolve) == Success(s)
    decreases |s|
  {
    if s != [] {
      assert !OccursAt(s, "${", 0);
      assert PlaceholderAt(s) == None;
      forall i | 0 <= i
        ensures !OccursAt(s[1..], "${", i)
      {
        if i + 2 <= |s[1..]| {
          assert s[1..][i..i + 2] == s[i + 1..i + 3];
          assert !OccursAt(s, "${", i + 1);
        }
      }
      ExpandNoPlaceholder(s[1..], resolve);
      assert [s[0]] + s[1..] == s;
    }
  }

  /** One piece of a template: literal text or a placeholder reference. */
  datatype Piece = Lit(text: string) | Ref(name: string)

  /** Literal text holds no `$` and a reference has a placeholder name, so that the
      shown template has exactly the references as its placeholders. */
  predicate WellFormed(p: Piece) {
    match p
    case Lit(t) => '$' !in t
    case Ref(n) => IsPlaceholderName(n)
  }

  /** The template written out as text. */
  function Show(ps: seq<Piece>): string {
    if ps == [] then []
    else
      (match ps[0]
       case Lit(t) => t
       case Ref(n) => "${" + n + "}")
      + Show(ps[1..])
  }

  /** The reference meaning of substitution: each reference replaced by its value,
      literal text kept, failing at the first reference that does not resolve. */
  function Render(ps: seq<Piece>, resolve: string -> Option<string>): Result<string, string> {
    if ps == [] then Success([])
    else match ps[0]
      case Lit(t) => Prepend(t, Render(ps[1..], resolve))
      case Ref(n) =>
        match resolve(n)
        case None => Failure(n)
        case Some(v) => Prepend(v, Render(ps[1..], resolve))
  }

  /** A string not led by `$` copies its first character and goes on after it. */
  lemma ExpandLeadingChar(s: string, resolve: string -> Option<string>)
    requires s != [] && s[0] != '$'
    ensures Expand(s, resolve) == Prepend([s[0]], Expand(s[1..], resolve))
  {
    assert PlaceholderAt(s) == None;
  }

  /** No placeholder starts inside the literal text `t` when `rest` follows it. A `$`
      is allowed in `t` as long as it does not open a `${name}` there. */
  predicate NoPlaceholderIn(t: string, rest: string) {
    forall i :: 0 <= i < |t| ==> PlaceholderAt((t + rest)[i..]).None?
  }

  /** Literal text in which no placeholder starts is copied verbatim, and the scan
      goes on with what follows it. */
  lemma {:induction false} ExpandLiteral(t: string, rest: string, resolve: string -> Option<string>)
    requires NoPlaceholderIn(t, rest)
    ensures Expand(t + rest, resolve) == Prepend(t, Expand(rest, resolve))
    decreases |t|
  {
    if t == [] {
      assert t + rest == rest;
      match Expand(rest, resolve) {
        case Success(s) => assert t + s == s;
        case Failure(_) =>
      }
    } else {
      var s := t + rest;
      assert s[0..] == s;
      assert PlaceholderAt(s).None?;
      assert s[1..] == t[1..] + rest;
      forall i | 0 <= i < |t[1..]|
        ensures PlaceholderAt((t[1..] + rest)[i..]).None?
      {
        assert (t[1..] + rest)[i..] == s[i + 1..];
      }
      ExpandLiteral(t[1..], rest, resolve);
      PrependAssoc([t[0]], t[1..], Expand(rest, resolve));
      assert [t[0]] + t[1..] == t;
    }
  }

  /** Text without a `$` never opens a placeholder, whatever follows it. */
  lemma DollarFreeNoPlaceholder(t: string, rest: string)
    requires '$' !in t
    ensures NoPlaceholderIn(t, rest)
  {
    forall i | 0 <= i < |t|
      ensures PlaceholderAt((t + rest)[i..]).None?
    {
      assert (t + rest)[i..][0] == t[i];
    }
  }

  lemma ExpandReference(n: string, rest: string, resolve: string -> Option<string>)
    requires IsPlaceholderName(n)
    ensures Expand("${" + n + "}" + rest, resolve) ==
            match resolve(n)
            case None => Failure(n)
            case Some(v) => Prepend(v, Expand(rest, resolve))
  {
    PlaceholderAtExact(n, rest);
  }

  lemma PrependAssoc(a: string, b: string, r: Result<string, string>)
    ensures Prepend(a, Prepend(b, r)) == Prepend(a + b, r)
  {
    match r {
      case Success(s) => assert a + (b + s) == (a + b) + s;
      case Failure(_) =>
    }
  }

  /** The template reads back as its own pieces: each reference has a placeholder
      name and no placeholder starts inside literal text, given the text after it. */
  predicate Parses(ps: seq<Piece>) {
    ps == [] ||
      (&& (match ps[0]
           case Lit(t) => NoPlaceholderIn(t, Show(ps[1..]))
           case Ref(n) => IsPlaceholderName(n))
       && Parses(ps[1..]))
  }

  /** Pieces each well-formed on their own make a template that reads back as them. */
  lemma {:induction false} WellFormedParses(ps: seq<Piece>)
    requires forall p <- ps :: WellFormed(p)
    ensures Parses(ps)
  {
    if ps != [] {
      assert WellFormed(ps[0]);
      assert forall p <- ps[1..] :: WellFormed(p);
      WellFormedParses(ps[1..]);
      if ps[0].Lit? {
        DollarFreeNoPlaceholder(ps[0].text, Show(ps[1..]));
      }
    }
  }

  /** Substituting a template that reads back as its pieces is rendering it:
      placeholders are replaced left to right, adjacent ones included, and the text
      around them, `$` signs included, is kept verbatim. */
  lemma {:induction false} ExpandShow(ps: seq<Piece>, resolve: string -> Option<string>)
    requires Parses(ps)
    ensures Expand(Show(ps), resolve) == Render(ps, resolve)
  {
    if ps != [] {
      ExpandShow(ps[1..], resolve);
      match ps[0] {
        case Lit(t) =>
          ExpandLiteral(t, Show(ps[1..]), resolve);
        case Ref(n) =>
          assert Show(ps) == "${" + n + "}" + Show(ps[1..]);
          ExpandReference(n, Show(ps[1..]), resolve);
      }
    }
  }

  /** A lone `$` before a placeholder, as in `$${X}`, is literal text. */
  lemma DollarBeforePlaceholder(n: string, rest: string)
    requires IsPlaceholderName(n)
    ensures NoPlaceholderIn("$", "${" + n + "}" + rest)
  {
    var s := "$" + ("${" + n + "}" + rest);
    assert s[0..] == s && s[1] == '$';
  }

  /** Text whose every `$` is followed, within the text, by something other than `{`
      opens no placeholder, whatever comes after it. */
  lemma DollarNotBraceNoPlaceholder(t: string, rest: string)
    requires forall i :: 0 <= i < |t| && t[i] == '$' ==> i + 1 < |t| && t[i + 1] != '{'
    ensures NoPlaceholderIn(t, rest)
  {
    forall i | 0 <= i < |t|
      ensures PlaceholderAt((t + rest)[i..]).None?
    {
      var s := (t + rest)[i..];
      assert s[0] == t[i];
      if t[i] == '$' { assert s[1] == t[i + 1]; }
    }
  }

  /** `$HOME/${X}`: the shell-style `$HOME` stays as it is and only `${X}` is replaced. */
  lemma ExpandDollarText(v: string, resolve: string -> Option<string>)
    requires resolve("X") == Some(v)
    ensures Expand("$HOME/${X}", resolve) == Success("$HOME/" + v)
  {
    var ps := [Lit("$HOME/"), Ref("X")];
    DollarNotBraceNoPlaceholder("$HOME/", "${X}");
    assert ps[1..] == [Ref("X")] && ps[1..][1..] == [];
    assert Show(ps[1..]) == "${X}";
    assert Parses(ps);
    assert Show(ps) == "$HOME/${X}";
    ExpandShow(ps, resolve);
    assert v + [] == v;
  }
}
