/** The JavaScript string operations the plugin relies on, over `seq<char>`. */
module Strings {
  import opened Seqs

  /** ECMAScript WhiteSpace and LineTerminator: what `trim` strips and what the regex class `\s` matches. */
  predicate IsSpace(c: char) {
    || c == ' ' || c == '\t' || c == '\n' || c == '\r' || c == '\U{B}' || c == '\U{C}'
    || c == '\U{A0}' || c == '\U{1680}' || ('\U{2000}' <= c <= '\U{200A}')
    || c == '\U{2028}' || c == '\U{2029}' || c == '\U{202F}' || c == '\U{205F}'
    || c == '\U{3000}' || c == '\U{FEFF}'
  }

  predicate NoSpace(s: string) {
    forall i :: 0 <= i < |s| ==> !IsSpace(s[i])
  }

  function TrimStart(s: string): (r: string)
    ensures |r| <= |s| && r == s[|s| - |r|..]
    ensures |r| > 0 ==> !IsSpace(r[0])
    decreases |s|
  {
    if |s| > 0 && IsSpace(s[0]) then TrimStart(s[1..]) else s
  }

  function TrimEnd(s: string): (r: string)
    ensures |r| <= |s| && r == s[..|r|]
    ensures |r| > 0 ==> !IsSpace(r[|r| - 1])
    decreases |s|
  {
    if |s| > 0 && IsSpace(s[|s| - 1]) then TrimEnd(s[..|s| - 1]) else s
  }

  /** `String.prototype.trim`. */
  function Trim(s: string): (r: string)
    ensures |r| <= |s|
    ensures |r| > 0 ==> !IsSpace(r[0]) && !IsSpace(r[|r| - 1])
  {
    var t := TrimStart(s);
    var r := TrimEnd(t);
    assert |r| > 0 ==> r[0] == t[0];
    r
  }

  lemma TrimNoSpace(s: string)
    requires NoSpace(s)
    ensures Trim(s) == s
  {
  }

  predicate NotSpace(c: char) {
    !IsSpace(c)
  }

  predicate AllSpace(s: string) {
    forall i :: 0 <= i < |s| ==> IsSpace(s[i])
  }

  /** Leading whitespace in front of text that starts with a non-space is all `trimStart` removes. */
  lemma {:induction false} TrimStartPadded(pad: string, x: string)
    requires AllSpace(pad) && |x| > 0 && !IsSpace(x[0])
    ensures TrimStart(pad + x) == x
    decreases |pad|
  {
    if |pad| == 0 {
      assert pad + x == x;
    } else {
      assert (pad + x)[0] == pad[0];
      assert (pad + x)[1..] == pad[1..] + x;
      TrimStartPadded(pad[1..], x);
    }
  }

  /** Trailing whitespace after text that ends with a non-space is all `trimEnd` removes. */
  lemma {:induction false} TrimEndPadded(x: string, pad: string)
    requires AllSpace(pad) && |x| > 0 && !IsSpace(x[|x| - 1])
    ensures TrimEnd(x + pad) == x
    decreases |pad|
  {
    if |pad| == 0 {
      assert x + pad == x;
    } else {
      var s := x + pad;
      assert s[|s| - 1] == pad[|pad| - 1];
      assert s[..|s| - 1] == x + pad[..|pad| - 1];
      TrimEndPadded(x, pad[..|pad| - 1]);
    }
  }

  /** `trim` removes exactly the whitespace around text whose ends are not whitespace. */
  lemma TrimPadded(before: string, x: string, after: string)
    requires AllSpace(before) && AllSpace(after)
    requires |x| > 0 && !IsSpace(x[0]) && !IsSpace(x[|x| - 1])
    ensures Trim(before + x + after) == x
  {
    assert before + x + after == before + (x + after);
    assert (x + after)[0] == x[0];
    TrimStartPadded(before, x + after);
    TrimEndPadded(x, after);
  }

  /** `s.replace(/c/g, "")`: every occurrence of `c` removed. */
  function RemoveChar(s: string, c: char): (r: string)
    ensures c !in r
  {
    Filter(s, Except(c))
  }

  /** Removing a character that does not occur changes nothing. */
  lemma RemoveAbsentChar(s: string, c: char)
    requires c !in s
    ensures RemoveChar(s, c) == s
  {
    FilterAll(s, Except(c));
  }

  /** `s.replace(/\s+/g, "")`: every whitespace character removed. */
  function RemoveSpaces(s: string): (r: string)
    ensures NoSpace(r)
  {
    var r := Filter(s, NotSpace);
    assert forall i :: 0 <= i < |r| ==> r[i] in r;
    r
  }

  /** `s.replace(/c+$/, "")`: the trailing run of `c` removed. */
  function StripTrailing(s: string, c: char): (r: string)
    ensures |r| <= |s| && r == s[..|r|]
    ensures |r| > 0 ==> r[|r| - 1] != c
    ensures forall i :: |r| <= i < |s| ==> s[i] == c
    decreases |s|
  {
    if |s| > 0 && s[|s| - 1] == c then StripTrailing(s[..|s| - 1], c) else s
  }

  /** ASCII lower-casing of one character (`toLowerCase` on the characters tags use). */
  function LowerChar(c: char): char {
    if 'A' <= c <= 'Z' then (c as int + 32) as char else c
  }

  /** `String.prototype.toLowerCase`, modelled on ASCII letters. */
  function ToLower(s: string): (r: string)
    ensures |r| == |s|
    ensures forall i :: 0 <= i < |s| ==> r[i] == LowerChar(s[i])
  {
    seq(|s|, i requires 0 <= i < |s| => LowerChar(s[i]))
  }

  predicate StartsWith(s: string, prefix: string) {
    |prefix| <= |s| && s[..|prefix|] == prefix
  }

  predicate EndsWith(s: string, c: char) {
    |s| > 0 && s[|s| - 1] == c
  }

  /** `s.split(sep)` for a one-character separator: never empty, one piece more than separators. */
  function Split(s: string, sep: char): (r: seq<string>)
    ensures |r| >= 1
    ensures forall i :: 0 <= i < |r| ==> sep !in r[i]
    decreases |s|
  {
    if |s| == 0 then [""]
    else
      var rest := Split(s[1..], sep);
      if s[0] == sep then [""] + rest
      else [[s[0]] + rest[0]] + rest[1..]
  }

  /** `parts.join(sep)`. */
  function Join(parts: seq<string>, sep: string): string
    decreases |parts|
  {
    if |parts| == 0 then ""
    else if |parts| == 1 then parts[0]
    else parts[0] + sep + Join(parts[1..], sep)
  }

  lemma {:induction false} JoinSplit(s: string, sep: char)
    ensures Join(Split(s, sep), [sep]) == s
    decreases |s|
  {
    if |s| > 0 {
      var rest := Split(s[1..], sep);
      JoinSplit(s[1..], sep);
      if s[0] == sep {
        assert s == [sep] + s[1..];
      } else if |rest| == 1 {
        assert s == [s[0]] + s[1..];
      } else {
        assert Split(s, sep)[1..] == rest[1..];
        assert s == [s[0]] + s[1..];
      }
    }
  }

  /** `s.replace(/c/g, repl)`: every occurrence of the character `c` replaced by `repl`. */
  function ReplaceChar(s: string, c: char, repl: string): (r: string)
    ensures c !in repl ==> c !in r
    decreases |s|
  {
    if |s| == 0 then ""
    else (if s[0] == c then repl else [s[0]]) + ReplaceChar(s[1..], c, repl)
  }

  lemma {:induction false} ReplaceCharLength(s: string, c: char, repl: string)
    requires repl != ""
    ensures |ReplaceChar(s, c, repl)| >= |s|
    ensures ReplaceChar(s, c, repl) == "" <==> s == ""
    decreases |s|
  {
    if |s| > 0 {
      ReplaceCharLength(s[1..], c, repl);
    }
  }
}
