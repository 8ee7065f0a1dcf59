/** The parts of `std::string` and of C strings the two `StringUtils` versions rely
    on: `compare(pos, len, str)`, `replace(pos, count, str)`, `strlen`, and the
    exceptions they throw. */
module CppString {
  import opened Wrappers
  import opened Text

  /** The exceptions thrown. The library's messages are not modelled. */
  datatype Error = OutOfRange | InvalidArgument

  /** The width of `size_t`. */
  const SizeMax: nat := 0x1_0000_0000_0000_0000

  function Min(a: nat, b: nat): nat { if a <= b then a else b }

  /** `s.compare(pos, len, t) == 0`: throws when `pos > size()`, otherwise compares
      the at most `len` characters from `pos` with `t`. */
  function CompareEqual(s: string, pos: nat, len: nat, t: string): (r: Result<bool, Error>)
    ensures r.Failure? <==> pos > |s|
    ensures r.Success? ==> (r.value <==> s[pos..pos + Min(len, |s| - pos)] == t)
  {
    if pos > |s| then Failure(OutOfRange) else Success(s[pos..pos + Min(len, |s| - pos)] == t)
  }

  /** `s.replace(pos, count, t)`: throws when `pos > size()`, otherwise replaces the
      at most `count` characters from `pos` by `t`. */
  function StdReplace(s: string, pos: nat, count: nat, t: string): (r: Result<string, Error>)
    ensures r.Failure? <==> pos > |s|
    ensures r.Success? ==> |r.value| == |s| - Min(count, |s| - pos) + |t|
    ensures r.Success? ==> r.value[..pos] == s[..pos] && r.value[pos..pos + |t|] == t
  {
    if pos > |s| then Failure(OutOfRange) else Success(s[..pos] + t + s[pos + Min(count, |s| - pos)..])
  }

  /** The characters of a NUL-terminated buffer before its first NUL: what `strlen`
      measures. */
  function CString(p: seq<char>): (s: string)
    requires '\0' in p
    ensures |s| < |p| && '\0' !in s && s == p[..|s|] && p[|s|] == '\0'
  {
    p[..IndexOf(p, '\0').value]
  }

  /** The password rule: at least one upper-case letter and at least one digit. */
  predicate ValidPassword(s: string) {
    (exists i :: 0 <= i < |s| && IsUpper(s[i])) && (exists i :: 0 <= i < |s| && IsDigit(s[i]))
  }

  /** The `for (i < strlen(password))` loop of `IsValidPassword`, shared by both
      versions once the pointer is known not to be null. */
  method ScanPassword(p: seq<char>) returns (valid: bool)
    requires '\0' in p
    ensures valid <==> ValidPassword(CString(p))
  {
    var s := CString(p);
    var hasUpper, hasDigit := false, false;
    var i := 0;
    while i < |s|
      invariant 0 <= i <= |s|
      invariant hasUpper <==> exists k :: 0 <= k < i && IsUpper(s[k])
      invariant hasDigit <==> exists k :: 0 <= k < i && IsDigit(s[k])
    {
      if IsUpper(p[i]) { hasUpper := true; }
      if IsDigit(p[i]) { hasDigit := true; }
      i := i + 1;
    }
    valid := hasUpper && hasDigit;
  }

  /** `memcpy(buffer, src, |src|)` then `buffer[|src|] = '\0'`, all other cells kept. */
  function WriteCString(src: string, buffer: seq<char>): (r: seq<char>)
    requires |src| + 1 <= |buffer|
    ensures |r| == |buffer|
    ensures forall i :: 0 <= i < |src| ==> r[i] == src[i]
    ensures r[|src|] == '\0'
    ensures forall i :: |src| < i < |buffer| ==> r[i] == buffer[i]
  {
    src + ['\0'] + buffer[|src| + 1..]
  }

  /** Reading the buffer back as a C string gives the source, unless the source
      itself holds a NUL, in which case the read stops there. */
  lemma WriteCStringReadBack(src: string, buffer: seq<char>)
    requires |src| + 1 <= |buffer|
    ensures '\0' !in src ==> CString(WriteCString(src, buffer)) == src
    ensures '\0' in src ==> CString(WriteCString(src, buffer)) == CString(src)
  {
    var r := WriteCString(src, buffer);
    assert r[..|src|] == src;
    if '\0' !in src {
      assert '\0' in r && IndexOf(r, '\0') == Some(|src|);
    } else {
      var k := IndexOf(src, '\0').value;
      assert r[..k] == src[..k];
      assert IndexOf(r, '\0') == Some(k);
    }
  }
}

/** `project_string/StringUtils_Improved`: each function checks its inputs and
    reports bad ones with an exception or a `false`. */
module StringUtilsImproved {
  import opened Wrappers
  import opened Text
  import opened CppString

  /** `EndsWith`: false for a suffix longer than the string, otherwise the last
      `|suffix|` characters compared with it. */
  function EndsWith(s: string, suffix: string): (r: bool)
  {
    if |suffix| > |s| then false
    else CompareEqual(s, |s| - |suffix|, |suffix|, suffix).value
  }

  /** A string ends with `suffix` exactly when it is something followed by `suffix`;
      in particular every string ends with the empty suffix. */
  lemma EndsWithIffConcat(s: string, suffix: string)
    ensures EndsWith(s, suffix) <==> exists p :: s == p + suffix
    ensures EndsWith(s, "")
  {
    if EndsWith(s, suffix) {
      assert s == s[..|s| - |suffix|] + suffix;
    }
    if exists p :: s == p + suffix {
      var p :| s == p + suffix;
      assert s[|p|..] == suffix;
    }
    assert s[|s|..] == "";
  }

  lemma EndsWithExamples()
    ensures EndsWith("hello_world", "world")
    ensures !EndsWith("hello_world", "word")
    ensures EndsWith("hello", "")
    ensures !EndsWith("hi", "hello")
  {
    assert "hello_world"[6..] == "world";
    assert "hello_world"[7..11][0] != "word"[0];
  }

  /** `Split`: the empty string has no pieces; otherwise the pieces `getline` reads. */
  function Split(s: string, delimiter: char): (r: seq<string>)
    ensures s == [] <==> r == []
    ensures forall p <- r :: delimiter !in p
    ensures Join(r, delimiter) + (if EndsWithChar(s, delimiter) then [delimiter] else []) == s
  {
    JoinGetlineSplit(s, delimiter);
    if s == [] then [] else GetlineSplit(s, delimiter)
  }

  /** Splitting a join gives back the pieces when the last one is not empty. */
  lemma SplitJoin(pieces: seq<string>, delimiter: char)
    requires pieces != [] && pieces[|pieces| - 1] != []
    requires forall p <- pieces :: delimiter !in p
    ensures Split(Join(pieces, delimiter), delimiter) == pieces
  {
    GetlineSplitJoin(pieces, delimiter);
  }

  lemma SplitExample()
    ensures Split("a,b,c", ',') == ["a", "b", "c"]
    ensures Split("", ',') == []
  {
    var ps := ["a", "b", "c"];
    assert Join(ps[2..], ',') == "c";
    assert Join(ps[1..], ',') == "b,c";
    assert Join(ps, ',') == "a,b,c";
    SplitJoin(ps, ',');
  }

  /** `ReplaceSubstring`: a start past the end throws `out_of_range`; otherwise the
      at most `length` characters from `start` are replaced. */
  function ReplaceSubstring(s: string, start: nat, length: nat, replacement: string): (r: Result<string, Error>)
    ensures r.Failure? <==> start > |s|
    ensures r.Failure? ==> r.error == OutOfRange
  {
    if start > |s| then Failure(OutOfRange)
    else StdReplace(s, start, Min(length, |s| - start), replacement)
  }

  /** The result is the text before `start`, the replacement, and the text after
      the replaced span. */
  lemma ReplaceSubstringShape(s: string, start: nat, length: nat, replacement: string)
    requires start <= |s|
    ensures ReplaceSubstring(s, start, length, replacement)
         == Success(s[..start] + replacement + s[start + Min(length, |s| - start)..])
  {
  }

  /** Replacing the span back with the text that was there restores the string. */
  lemma ReplaceSubstringUndo(s: string, start: nat, length: nat, replacement: string)
    requires start <= |s|
    ensures var n := Min(length, |s| - start);
      var r := ReplaceSubstring(s, start, length, replacement).value;
      ReplaceSubstring(r, start, |replacement|, s[start..start + n]) == Success(s)
  {
    var n := Min(length, |s| - start);
    var r := s[..start] + replacement + s[start + n..];
    assert r[..start] == s[..start];
    assert r[start + |replacement|..] == s[start + n..];
    assert s[..start] + s[start..start + n] + s[start + n..] == s;
  }

  lemma ReplaceSubstringExamples()
    ensures ReplaceSubstring("hello world", 6, 5, "there") == Success("hello there")
    ensures ReplaceSubstring("hello", 10, 2, "!!") == Failure(OutOfRange)
  {
    assert "hello world"[..6] + "there" + "hello world"[11..] == "hello there";
  }

  /** `IsValidPassword`: a null pointer is invalid; otherwise the C string must hold
      an upper-case letter and a digit. */
  method IsValidPassword(password: Option<seq<char>>) returns (valid: bool)
    requires password.Some? ==> '\0' in password.value
    ensures password.None? ==> !valid
    ensures password.Some? ==> (valid <==> ValidPassword(CString(password.value)))
  {
    if password.None? {
      return false;
    }
    valid := ScanPassword(password.value);
  }

  lemma ValidPasswordExample()
    ensures ValidPassword("Pass123")
    ensures !ValidPassword("password")
  {
    assert IsUpper("Pass123"[0]) && IsDigit("Pass123"[4]);
    assert forall i :: 0 <= i < |"password"| ==> !IsUpper("password"[i]);
  }

  /** `copyToBuffer`: a null buffer throws `invalid_argument`, a source that does not
      fit with its NUL in `bufferSize` throws `out_of_range`, otherwise the source and
      a NUL are written at the front. `bufferSize` is the caller's statement of the
      buffer's length, so it may not exceed it. */
  function CopyToBuffer(src: string, buffer: Option<seq<char>>, bufferSize: nat): (r: Result<seq<char>, Error>)
    requires buffer.Some? ==> bufferSize <= |buffer.value|
    ensures buffer.None? ==> r == Failure(InvalidArgument)
    ensures buffer.Some? && |src| + 1 > bufferSize ==> r == Failure(OutOfRange)
    ensures buffer.Some? && |src| + 1 <= bufferSize ==> r.Success?
    ensures r.Success? ==> |src| + 1 <= bufferSize
    ensures r.Success? ==> |r.value| == |buffer.value| && r.value[|src| + 1..] == buffer.value[|src| + 1..]
    ensures r.Success? && '\0' !in src ==> '\0' in r.value && CString(r.value) == src
  {
    match buffer
    case None => Failure(InvalidArgument)
    case Some(b) =>
      if |src| + 1 > bufferSize then Failure(OutOfRange)
      else
        WriteCStringReadBack(src, b);
        Success(WriteCString(src, b))
  }

  /** The same copy into an array, cell by cell. */
  method CopyToArray(src: string, buffer: array?<char>, bufferSize: nat) returns (r: Option<Error>)
    requires buffer != null ==> bufferSize <= buffer.Length
    modifies buffer
    ensures buffer == null ==> r == Some(InvalidArgument)
    ensures buffer != null && |src| + 1 > bufferSize ==> r == Some(OutOfRange) && buffer[..] == old(buffer[..])
    ensures buffer != null && |src| + 1 <= bufferSize ==> r.None?
    ensures r.None? ==> buffer != null && buffer[..] == WriteCString(src, old(buffer[..]))
  {
    if buffer == null {
      return Some(InvalidArgument);
    }
    if |src| + 1 > bufferSize {
      return Some(OutOfRange);
    }
    var i := 0;
    while i < |src|
      invariant 0 <= i <= |src|
      invariant forall k :: 0 <= k < i ==> buffer[k] == src[k]
      invariant forall k :: i <= k < buffer.Length ==> buffer[k] == old(buffer[k])
    {
      buffer[i] := src[i];
      i := i + 1;
    }
    buffer[|src|] := '\0';
    r := None;
  }
}

/** `project_string/StringUtils_Practice`: the same five functions without their
    checks. Where the unchecked code would be undefined behaviour the functions
    demand the input that avoids it; elsewhere they do what the library does. */
module StringUtilsPractice {
  import opened Wrappers
  import opened Text
  import opened CppString
  import Improved = StringUtilsImproved

  /** `EndsWith` with the start index computed in `size_t`: a longer suffix wraps
      round to a huge index, and `compare` throws. */
  function EndsWith(s: string, suffix: string): (r: Result<bool, Error>)
    requires |s| < SizeMax && |suffix| < SizeMax
  {
    var pos := (|s| - |suffix|) % SizeMax;
    CompareEqual(s, pos, |suffix|, suffix)
  }

  /** It agrees with the checked version when the suffix fits, and throws
      `out_of_range` when it does not. */
  lemma EndsWithAgainstImproved(s: string, suffix: string)
    requires |s| < SizeMax && |suffix| < SizeMax
    ensures |suffix| <= |s| ==> EndsWith(s, suffix) == Success(Improved.EndsWith(s, suffix))
    ensures |suffix| > |s| ==> EndsWith(s, suffix) == Failure(OutOfRange)
  {
    if |suffix| > |s| {
      assert (|s| - |suffix|) % SizeMax == SizeMax + |s| - |suffix|;
    }
  }

  /** `Split` with no empty-input check: `getline` on an empty stream reads nothing,
      so it returns no pieces all the same. */
  function Split(s: string, delimiter: char): (r: seq<string>)
  {
    GetlineSplit(s, delimiter)
  }

  lemma SplitAgainstImproved(s: string, delimiter: char)
    ensures Split(s, delimiter) == Improved.Split(s, delimiter)
  {
  }

  /** `ReplaceSubstring` through `std::string::replace` alone: the library throws for
      a start past the end and shortens the span itself. */
  function ReplaceSubstring(s: string, start: nat, length: nat, replacement: string): (r: Result<string, Error>)
  {
    StdReplace(s, start, length, replacement)
  }

  lemma ReplaceSubstringAgainstImproved(s: string, start: nat, length: nat, replacement: string)
    ensures ReplaceSubstring(s, start, length, replacement) == Improved.ReplaceSubstring(s, start, length, replacement)
  {
  }

  /** `IsValidPassword` on a pointer that must not be null (`strlen` of null is
      undefined). */
  method IsValidPassword(password: seq<char>) returns (valid: bool)
    requires '\0' in password
    ensures valid <==> ValidPassword(CString(password))
  {
    valid := ScanPassword(password);
  }

  /** `copyToBuffer` on a buffer that must not be null and must hold the source and
      its NUL; `bufferSize` is not consulted. */
  function CopyToBuffer(src: string, buffer: seq<char>, bufferSize: nat): (r: seq<char>)
    requires |src| + 1 <= |buffer|
    ensures |r| == |buffer| && r[|src|] == '\0' && r[..|src|] == src
  {
    WriteCString(src, buffer)
  }

  /** Where the checked version does not throw, both write the same buffer. */
  lemma CopyToBufferAgainstImproved(src: string, buffer: seq<char>, bufferSize: nat)
    requires |src| + 1 <= bufferSize <= |buffer|
    ensures Improved.CopyToBuffer(src, Some(buffer), bufferSize) == Success(CopyToBuffer(src, buffer, bufferSize))
  {
  }
}
