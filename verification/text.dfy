/** Character and string primitives of the C++ standard library, as the modelled
    programs use them: `std::getline`, `istream >> std::string`, `find`, trimming,
    `std::to_string`, and the C-locale character classes. */
module Text {
  import opened Wrappers

  /** `isspace` in the C locale: what `istream >> std::string` skips. */
  predicate IsSpace(c: char) {
    c == ' ' || c == '\t' || c == '\n' || c == '\U{B}' || c == '\U{C}' || c == '\r'
  }

  predicate IsUpper(c: char) { 'A' <= c <= 'Z' }
  predicate IsLower(c: char) { 'a' <= c <= 'z' }
  predicate IsDigit(c: char) { '0' <= c <= '9' }
  predicate IsAlpha(c: char) { IsUpper(c) || IsLower(c) }
  predicate IsAlnum(c: char) { IsAlpha(c) || IsDigit(c) }

  /** `s[i]` on a `std::string`: index `size()` yields the terminating NUL. */
  function CharAt(s: string, i: nat): (c: char)
    ensures i < |s| ==> c == s[i]
    ensures i >= |s| ==> c == '\0'
  {
    if i < |s| then s[i] else '\0'
  }

  /** `s.find(c)`: the first index holding `c`, or `npos` (None). */
  function IndexOf(s: string, c: char): (r: Option<nat>)
    ensures r.Some? ==> r.value < |s| && s[r.value] == c && c !in s[..r.value]
    ensures r.None? <==> c !in s
  {
    if s == [] then None
    else if s[0] == c then Some(0)
    else match IndexOf(s[1..], c)
      case None => None
      case Some(i) => assert s[1..][..i] == s[1..i + 1]; Some(i + 1)
  }

  predicate OccursAt(s: string, p: string, i: nat) {
    i + |p| <= |s| && s[i..i + |p|] == p
  }

  /** `s.find(p)`: the first index where `p` occurs, or `npos` (None). */
  function Find(s: string, p: string): (r: Option<nat>)
    ensures r.Some? ==> OccursAt(s, p, r.value)
    ensures r.Some? ==> forall i :: 0 <= i < r.value ==> !OccursAt(s, p, i)
    ensures r.None? ==> forall i :: 0 <= i ==> !OccursAt(s, p, i)
    decreases |s|
  {
    if |p| > |s| then None
    else if s[..|p|] == p then Some(0)
    else match Find(s[1..], p)
      case None =>
        assert forall i :: 1 <= i ==> (OccursAt(s, p, i) <==> OccursAt(s[1..], p, i - 1));
        None
      case Some(j) =>
        assert forall i :: 1 <= i ==> (OccursAt(s, p, i) <==> OccursAt(s[1..], p, i - 1));
        Some(j + 1)
  }

  predicate StartsWith(s: string, p: string) {
    |p| <= |s| && s[..|p|] == p
  }

  /** `s.find(p) == 0` is exactly a prefix test. */
  lemma FindZeroIffPrefix(s: string, p: string)
    ensures Find(s, p) == Some(0) <==> StartsWith(s, p)
  {
  }

  /** The leading run of non-space characters. */
  function WordLength(s: string): (n: nat)
    ensures n <= |s|
    ensures forall i :: 0 <= i < n ==> !IsSpace(s[i])
    ensures n < |s| ==> IsSpace(s[n])
  {
    if s == [] || IsSpace(s[0]) then 0 else 1 + WordLength(s[1..])
  }

  predicate IsWord(t: string) {
    t != [] && forall c <- t :: !IsSpace(c)
  }

  /** The tokens a loop `while (iss >> token)` reads from an `istringstream`. */
  function Tokens(s: string): (ts: seq<string>)
    ensures forall t <- ts :: IsWord(t)
    decreases |s|
  {
    if s == [] then []
    else if IsSpace(s[0]) then Tokens(s[1..])
    else
      var n := WordLength(s);
      [s[..n]] + Tokens(s[n..])
  }

  /** The words of `ts` separated by single spaces. */
  function Unwords(ts: seq<string>): string {
    if ts == [] then []
    else if |ts| == 1 then ts[0]
    else ts[0] + " " + Unwords(ts[1..])
  }

  lemma {:induction false} TokensSkipSpace(s: string, t: string)
    requires forall c <- s :: IsSpace(c)
    ensures Tokens(s + t) == Tokens(t)
    decreases |s|
  {
    if s != [] {
      assert s[0] in s;
      assert (s + t)[1..] == s[1..] + t;
      calc {
        Tokens(s + t);
        { assert IsSpace((s + t)[0]); }
        Tokens(s[1..] + t);
        { TokensSkipSpace(s[1..], t); }
        Tokens(t);
      }
    } else {
      assert s + t == t;
    }
  }

  lemma {:induction false} WordLengthOfWord(w: string, rest: string)
    requires IsWord(w)
    requires rest == [] || IsSpace(rest[0])
    ensures WordLength(w + rest) == |w|
    decreases |w|
  {
    if |w| > 1 {
      assert (w + rest)[1..] == w[1..] + rest;
      WordLengthOfWord(w[1..], rest);
    }
  }

  /** Tokenising re-reads exactly the words that were joined with spaces. */
  lemma {:induction false} TokensOfUnwords(ts: seq<string>)
    requires forall t <- ts :: IsWord(t)
    ensures Tokens(Unwords(ts)) == ts
  {
    if ts == [] {
    } else if |ts| == 1 {
      WordLengthOfWord(ts[0], []);
      assert ts[0][..|ts[0]|] == ts[0];
      assert ts[0][|ts[0]|..] == [];
    } else {
      var w, rest := ts[0], " " + Unwords(ts[1..]);
      var s := w + rest;
      assert s == Unwords(ts);
      WordLengthOfWord(w, rest);
      assert s[..|w|] == w;
      assert s[|w|..] == rest;
      TokensSkipSpace(" ", Unwords(ts[1..]));
      TokensOfUnwords(ts[1..]);
    }
  }

  /** The characters removed by the `" \t\n\r"` trim of a script line. */
  predicate IsTrimChar(c: char) {
    c == ' ' || c == '\t' || c == '\n' || c == '\r'
  }

  /** `line.erase(0, line.find_first_not_of(" \t\n\r"))` */
  function TrimLeft(s: string): (r: string)
    ensures |r| <= |s| && r == s[|s| - |r|..]
    ensures forall i :: 0 <= i < |s| - |r| ==> IsTrimChar(s[i])
    ensures r != [] ==> !IsTrimChar(r[0])
  {
    if s == [] || !IsTrimChar(s[0]) then s else TrimLeft(s[1..])
  }

  /** `line.erase(line.find_last_not_of(" \t\n\r") + 1)` */
  function TrimRight(s: string): (r: string)
    ensures |r| <= |s| && r == s[..|r|]
    ensures forall i :: |r| <= i < |s| ==> IsTrimChar(s[i])
    ensures r != [] ==> !IsTrimChar(r[|r| - 1])
  {
    if s == [] || !IsTrimChar(s[|s| - 1]) then s else TrimRight(s[..|s| - 1])
  }

  function Trim(s: string): (r: string)
    ensures r == [] || (!IsTrimChar(r[0]) && !IsTrimChar(r[|r| - 1]))
  {
    TrimRight(TrimLeft(s))
  }

  /** A line that neither starts nor ends with a trim character is left as it is. */
  lemma TrimUntouched(s: string)
    requires s != [] && !IsTrimChar(s[0]) && !IsTrimChar(s[|s| - 1])
    ensures Trim(s) == s
  {
  }

  /** The pieces a loop `while (getline(ss, piece, d))` reads from a string stream:
      a trailing delimiter opens no further piece, and an empty stream yields none. */
  function GetlineSplit(s: string, d: char): (pieces: seq<string>)
    ensures forall p <- pieces :: d !in p
    ensures s == [] <==> pieces == []
    decreases |s|
  {
    if s == [] then []
    else match IndexOf(s, d)
      case None => [s]
      case Some(i) => [s[..i]] + GetlineSplit(s[i + 1..], d)
  }

  /** The pieces glued back together with the delimiter between neighbours. */
  function Join(pieces: seq<string>, d: char): string {
    if pieces == [] then []
    else if |pieces| == 1 then pieces[0]
    else pieces[0] + [d] + Join(pieces[1..], d)
  }

  predicate EndsWithChar(s: string, d: char) {
    s != [] && s[|s| - 1] == d
  }

  /** Joining the pieces gives back the input, less one trailing delimiter. */
  lemma {:induction false} JoinGetlineSplit(s: string, d: char)
    ensures Join(GetlineSplit(s, d), d) + (if EndsWithChar(s, d) then [d] else []) == s
    decreases |s|
  {
    if s != [] {
      match IndexOf(s, d)
      case None =>
      case Some(i) =>
        var rest := s[i + 1..];
        assert s == s[..i] + [d] + rest;
        JoinGetlineSplit(rest, d);
        if rest == [] {
          assert EndsWithChar(s, d);
        } else {
          assert EndsWithChar(s, d) == EndsWithChar(rest, d);
          assert |GetlineSplit(s, d)| >= 2;
          assert GetlineSplit(s, d)[1..] == GetlineSplit(rest, d);
        }
    }
  }

  /** Splitting a join recovers the pieces, provided the last piece is not empty
      (an empty last piece would be a trailing delimiter, which opens no piece). */
  lemma {:induction false} GetlineSplitJoin(pieces: seq<string>, d: char)
    requires pieces != [] && pieces[|pieces| - 1] != []
    requires forall p <- pieces :: d !in p
    ensures GetlineSplit(Join(pieces, d), d) == pieces
  {
    var p := pieces[0];
    if |pieces| == 1 {
      assert IndexOf(p, d) == None;
    } else {
      var rest := Join(pieces[1..], d);
      var s := p + [d] + rest;
      assert s == Join(pieces, d);
      IndexOfAfter(p, d, rest);
      assert s[..|p|] == p;
      assert s[|p| + 1..] == rest;
      GetlineSplitJoin(pieces[1..], d);
    }
  }

  lemma IndexOfAfter(p: string, d: char, rest: string)
    requires d !in p
    ensures IndexOf(p + [d] + rest, d) == Some(|p|)
  {
    var s := p + [d] + rest;
    assert s[..|p|] == p;
    assert s[|p|] == d;
  }

  /** The digit characters of `n`, as `std::to_string` writes a non-negative number. */
  function NatToString(n: nat): (s: string)
    ensures s != [] && forall c <- s :: IsDigit(c)
  {
    if n < 10 then [Digit(n)] else NatToString(n / 10) + [Digit(n % 10)]
  }

  function Digit(d: nat): (c: char)
    requires d < 10
    ensures IsDigit(c) && c as int - '0' as int == d
  {
    ('0' as int + d) as char
  }

  /** The number a string of decimal digits denotes. */
  function DecimalValue(s: string): nat
    requires forall c <- s :: IsDigit(c)
  {
    if s == [] then 0
    else
      var last := s[|s| - 1];
      assert last in s;
      assert IsDigit(last);
      assert last as int >= '0' as int;
      10 * DecimalValue(s[..|s| - 1]) + (last as int - '0' as int)
  }

  /** `NatToString` writes the number it is given. */
  lemma {:induction false} NatToStringValue(n: nat)
    ensures DecimalValue(NatToString(n)) == n
  {
    if n >= 10 {
      var s := NatToString(n);
      assert s[..|s| - 1] == NatToString(n / 10);
      NatToStringValue(n / 10);
    }
  }
}
