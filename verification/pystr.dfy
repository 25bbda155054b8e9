/**
  The few Python `str` operations the printer code relies on:
  `strip()`, `upper()`, `lower()`, `"\n".join(lines)`, and the line
  structure of a newline-terminated text.
*/
module PyStr {

  /** The characters Python's `str.isspace()` (and so `strip()`) treats as whitespace. */
  predicate IsSpace(c: char)
  {
    var n := c as int;
    n == 0x20 || (0x09 <= n <= 0x0D) || (0x1C <= n <= 0x1F) || n == 0x85 || n == 0xA0 ||
    n == 0x1680 || (0x2000 <= n <= 0x200A) || n == 0x2028 || n == 0x2029 ||
    n == 0x202F || n == 0x205F || n == 0x3000
  }

  predicate AllSpace(s: string) { forall i :: 0 <= i < |s| ==> IsSpace(s[i]) }

  /** `s.lstrip()`: drops the leading whitespace. */
  function TrimStart(s: string): (r: string)
    ensures |r| <= |s| && r == s[|s| - |r|..]
    ensures AllSpace(s[..|s| - |r|])
    ensures r == [] || !IsSpace(r[0])
  {
    if s != [] && IsSpace(s[0]) then
      var r := TrimStart(s[1..]);
      LeadingSpace(s, r);
      r
    else s
  }

  /** `s.rstrip()`: drops the trailing whitespace. */
  function TrimEnd(s: string): (r: string)
    ensures |r| <= |s| && r == s[..|r|]
    ensures AllSpace(s[|r|..])
    ensures r == [] || !IsSpace(r[|r| - 1])
  {
    if s != [] && IsSpace(s[|s| - 1]) then
      var r := TrimEnd(s[..|s| - 1]);
      TrailingSpace(s, r);
      r
    else s
  }

  /** A space in front of a space-only prefix leaves a space-only prefix. */
  lemma LeadingSpace(s: string, r: string)
    requires s != [] && IsSpace(s[0])
    requires |r| <= |s| - 1 && r == s[1..][|s| - 1 - |r|..] && AllSpace(s[1..][..|s| - 1 - |r|])
    ensures r == s[|s| - |r|..] && AllSpace(s[..|s| - |r|])
  {
    var k := |s| - |r|;
    assert s[1..][k - 1..] == s[k..];
    assert forall j :: 1 <= j < k ==> s[j] == s[1..][..k - 1][j - 1];
  }

  /** A space after a space-only suffix leaves a space-only suffix. */
  lemma TrailingSpace(s: string, r: string)
    requires s != [] && IsSpace(s[|s| - 1])
    requires |r| <= |s| - 1 && r == s[..|s| - 1][..|r|] && AllSpace(s[..|s| - 1][|r|..])
    ensures r == s[..|r|] && AllSpace(s[|r|..])
  {
    assert s[..|s| - 1][..|r|] == s[..|r|];
    assert forall j :: |r| <= j < |s| - 1 ==> s[j] == s[..|s| - 1][|r|..][j - |r|];
  }

  /** `r` sits at index i of `s` with only whitespace before and after it. */
  predicate SurroundedBySpace(s: string, r: string, i: nat)
  {
    i + |r| <= |s| && s[i..i + |r|] == r && AllSpace(s[..i]) && AllSpace(s[i + |r|..])
  }

  /** `s.strip()`: the part of `s` between its leading and its trailing whitespace. */
  function Strip(s: string): (r: string)
    ensures |r| <= |s|
  {
    TrimEnd(TrimStart(s))
  }

  /** What `strip()` keeps is flanked only by whitespace and has non-whitespace ends; it is empty exactly when `s` is all whitespace. */
  lemma StripSpec(s: string)
    ensures exists i: nat :: SurroundedBySpace(s, Strip(s), i)
    ensures var r := Strip(s); r == [] || (!IsSpace(r[0]) && !IsSpace(r[|r| - 1]))
    ensures Strip(s) == [] <==> AllSpace(s)
  {
    var t := TrimStart(s);
    var r := TrimEnd(t);
    Surrounded(s, |s| - |t|, t, r);
    var i: nat := |s| - |t|;
    assert SurroundedBySpace(s, Strip(s), i);
  }

  /** Whitespace, then `r`, then whitespace: `r` is empty exactly when `s` is all whitespace. */
  lemma Surrounded(s: string, i: nat, t: string, r: string)
    requires i <= |s| && t == s[i..] && AllSpace(s[..i]) && (t == [] || !IsSpace(t[0]))
    requires |r| <= |t| && r == t[..|r|] && AllSpace(t[|r|..]) && (r == [] || !IsSpace(r[|r| - 1]))
    ensures SurroundedBySpace(s, r, i)
    ensures r == [] || (!IsSpace(r[0]) && !IsSpace(r[|r| - 1]))
    ensures r == [] <==> AllSpace(s)
  {
    EmptyStripIsAllSpace(s, i, t, r);
    assert s[i..i + |r|] == t[..|r|];
    assert s[i + |r|..] == t[|r|..];
    if r != [] {
      assert r[0] == t[0] == s[i];
    }
  }

  lemma EmptyStripIsAllSpace(s: string, i: nat, t: string, r: string)
    requires i <= |s| && t == s[i..] && AllSpace(s[..i])
    requires |r| <= |t| && r == t[..|r|] && AllSpace(t[|r|..])
    ensures r == [] ==> AllSpace(s)
  {
    if r == [] {
      forall k | 0 <= k < |s| ensures IsSpace(s[k]) {
        if k < i { assert s[..i][k] == s[k]; } else { assert t[k - i] == s[k]; }
      }
    }
  }

  /** ASCII case mapping; hardware addresses are ASCII hexadecimal. */
  function UpperChar(c: char): char { if 'a' <= c <= 'z' then (c as int - 32) as char else c }
  function LowerChar(c: char): char { if 'A' <= c <= 'Z' then (c as int + 32) as char else c }

  /** `s.upper()`. */
  function Upper(s: string): (r: string)
    ensures |r| == |s|
    ensures forall i :: 0 <= i < |s| ==> !('a' <= r[i] <= 'z')
  {
    seq(|s|, i requires 0 <= i < |s| => UpperChar(s[i]))
  }

  /** `s.lower()`. */
  function Lower(s: string): (r: string)
    ensures |r| == |s|
    ensures forall i :: 0 <= i < |s| ==> !('A' <= r[i] <= 'Z')
  {
    seq(|s|, i requires 0 <= i < |s| => LowerChar(s[i]))
  }

  /** Upper-casing forgets every earlier change of case. */
  lemma UpperLower(s: string)
    ensures Upper(Lower(s)) == Upper(s) && Upper(Upper(s)) == Upper(s)
  {
    assert forall i :: 0 <= i < |s| ==> Upper(Lower(s))[i] == Upper(s)[i];
    assert forall i :: 0 <= i < |s| ==> Upper(Upper(s))[i] == Upper(s)[i];
  }

  /** `sep.join(lines)`. */
  function Join(sep: string, lines: seq<string>): (r: string)
  {
    if |lines| == 0 then ""
    else if |lines| == 1 then lines[0]
    else lines[0] + sep + Join(sep, lines[1..])
  }

  /** The text in which every line is followed by a newline. */
  function Terminated(lines: seq<string>): (r: string)
  {
    if lines == [] then "" else lines[0] + "\n" + Terminated(lines[1..])
  }

  /** `"\n".join(lines) + "\n"` terminates every line, the last one included. */
  lemma {:induction false} JoinTerminated(lines: seq<string>)
    requires |lines| > 0
    ensures Join("\n", lines) + "\n" == Terminated(lines)
  {
    if |lines| == 1 {
      assert lines[1..] == [];
    } else {
      JoinTerminated(lines[1..]);
    }
  }

  /** A terminated text ends with its last line and one newline. */
  lemma {:induction false} TerminatedEnd(lines: seq<string>)
    requires |lines| > 0
    ensures Terminated(lines) == Terminated(lines[..|lines| - 1]) + lines[|lines| - 1] + "\n"
  {
    if |lines| > 1 {
      TerminatedEnd(lines[1..]);
      assert lines[1..][..|lines| - 2] == lines[1..|lines| - 1];
      assert lines[..|lines| - 1][1..] == lines[1..|lines| - 1];
    }
  }

  /** A terminated text is the terminated prefix, line k, a newline and the rest. */
  lemma {:induction false} TerminatedSplit(lines: seq<string>, k: nat)
    requires k < |lines|
    ensures Terminated(lines) == Terminated(lines[..k]) + lines[k] + "\n" + Terminated(lines[k + 1..])
  {
    if k > 0 {
      TerminatedSplit(lines[1..], k - 1);
      assert lines[1..][..k - 1] == lines[..k][1..];
      assert lines[1..][k..] == lines[k + 1..];
    }
  }

  /** A non-empty terminated text ends with a newline. */
  lemma {:induction false} TerminatedLastNewline(lines: seq<string>)
    requires |lines| > 0
    ensures |Terminated(lines)| > 0 && Terminated(lines)[|Terminated(lines)| - 1] == '\n'
  {
    TerminatedEnd(lines);
  }

  /** `line` starts at index i of `text` as a whole line: at the start or after a newline, and followed by one. */
  predicate LineAt(text: string, line: string, i: nat)
  {
    i + |line| < |text| && text[i..i + |line| + 1] == line + "\n" && (i == 0 || text[i - 1] == '\n')
  }

  /** `line` occurs in `text` as a whole line. */
  predicate HasLine(text: string, line: string)
  {
    exists i: nat | i < |text| :: LineAt(text, line, i)
  }

  /** Every line of a terminated text is a whole line of it. */
  lemma TerminatedHasLine(lines: seq<string>, k: nat)
    requires k < |lines|
    ensures HasLine(Terminated(lines), lines[k])
  {
    TerminatedSplit(lines, k);
    var pre := Terminated(lines[..k]);
    if k > 0 {
      TerminatedLastNewline(lines[..k]);
    }
    LineAfter(pre, lines[k], Terminated(lines[k + 1..]));
    assert LineAt(Terminated(lines), lines[k], |pre|);
  }

  /** A line placed after a newline (or at the start) and followed by one is a whole line. */
  lemma LineAfter(pre: string, line: string, post: string)
    requires pre == [] || pre[|pre| - 1] == '\n'
    ensures LineAt(pre + line + "\n" + post, line, |pre|)
  {
    var text := pre + line + "\n" + post;
    assert text[|pre|..|pre| + |line| + 1] == line + "\n";
    if pre != [] {
      assert text[|pre| - 1] == pre[|pre| - 1];
    }
  }

  /** The first three lines of a terminated text, each followed by a newline, then the rest. */
  lemma TerminatedFirstThree(lines: seq<string>)
    requires |lines| >= 3
    ensures Terminated(lines) == lines[0] + "\n" + lines[1] + "\n" + lines[2] + "\n" + Terminated(lines[3..])
  {
    var rest := Terminated(lines[3..]);
    assert lines[2..][1..] == lines[3..];
    var t2 := Terminated(lines[2..]);
    assert t2 == lines[2] + "\n" + rest;
    assert lines[1..][1..] == lines[2..];
    var t1 := Terminated(lines[1..]);
    assert t1 == lines[1] + "\n" + t2;
    assert Terminated(lines) == lines[0] + "\n" + t1;
    Regroup(lines[0], "\n", lines[1], "\n", lines[2], "\n", rest);
  }

  lemma Regroup(a: string, b: string, c: string, d: string, e: string, f: string, g: string)
    ensures (a + b) + ((c + d) + ((e + f) + g)) == a + b + c + d + e + f + g
  {
  }

  /** A text ends with its last two parts. */
  lemma EndsWith(a: string, b: string, c: string)
    ensures |a + b + c| >= |b + c| && (a + b + c)[|a + b + c| - |b + c|..] == b + c
  {
  }

  /** A text starts with its first part. */
  lemma StartsWith(a: string, b: string)
    ensures |a + b| >= |a| && (a + b)[..|a|] == a
  {
  }


  /** The number of occurrences of `c` in `s`. */
  function Count(s: string, c: char): (r: nat)
    ensures r <= |s|
  {
    if s == [] then 0 else (if s[0] == c then 1 else 0) + Count(s[1..], c)
  }

  lemma {:induction false} CountAppend(a: string, b: string, c: char)
    ensures Count(a + b, c) == Count(a, c) + Count(b, c)
  {
    if a == [] {
      assert a + b == b;
    } else {
      assert (a + b)[1..] == a[1..] + b;
      CountAppend(a[1..], b, c);
    }
  }

  /** The newlines inside the lines of a sequence, added up. */
  function NewlinesWithin(lines: seq<string>): nat
  {
    if lines == [] then 0 else Count(lines[0], '\n') + NewlinesWithin(lines[1..])
  }

  /** A terminated text has one newline per line besides those inside the lines. */
  lemma {:induction false} CountTerminated(lines: seq<string>)
    ensures Count(Terminated(lines), '\n') == |lines| + NewlinesWithin(lines)
  {
    if lines != [] {
      CountAppend(lines[0] + "\n", Terminated(lines[1..]), '\n');
      CountAppend(lines[0], "\n", '\n');
      assert Count("\n", '\n') == 1 by { assert "\n"[1..] == ""; }
      CountTerminated(lines[1..]);
    }
  }
}
