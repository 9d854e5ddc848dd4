/**
 * The Python `str` operations the stores and the shells rely on:
 * `isspace`, `strip`, `split(sep)`, `readlines`, `lower` and `q in s`.
 */
module Text {

  /** `c.isspace()`: ASCII 0x09-0x0D and space, the separators 0x1C-0x1F, and the Unicode spaces. */
  predicate IsSpace(c: char) {
    || c == ' ' || '\t' <= c <= '\r' || '\U{1C}' <= c <= '\U{1F}'
    || c == '\U{85}' || c == '\U{A0}' || c == '\U{1680}'
    || '\U{2000}' <= c <= '\U{200A}'
    || c == '\U{2028}' || c == '\U{2029}' || c == '\U{202F}' || c == '\U{205F}' || c == '\U{3000}'
  }

  ghost predicate AllSpace(s: string) {
    forall i {:trigger IsSpace(s[i])} :: 0 <= i < |s| ==> IsSpace(s[i])
  }

  /** Neither end is whitespace: what `strip()` returns and leaves alone. */
  predicate Trimmed(s: string) {
    s == [] || (!IsSpace(s[0]) && !IsSpace(s[|s| - 1]))
  }

  function LeadingSpaces(s: string): (n: nat)
    ensures n <= |s| && AllSpace(s[..n])
    ensures n < |s| ==> !IsSpace(s[n])
  {
    if s == [] || !IsSpace(s[0]) then 0
    else
      var m := LeadingSpaces(s[1..]);
      assert s[..m + 1] == [s[0]] + s[1..][..m];
      m + 1
  }

  function TrailingSpaces(s: string): (n: nat)
    ensures n <= |s| && AllSpace(s[|s| - n..])
    ensures forall k :: |s| - n <= k < |s| ==> IsSpace(s[k])
    ensures n < |s| ==> !IsSpace(s[|s| - n - 1])
  {
    if s == [] || !IsSpace(s[|s| - 1]) then 0
    else
      var init := s[..|s| - 1];
      var m := TrailingSpaces(init);
      var tail := s[|s| - (m + 1)..];
      assert AllSpace(tail) by {
        forall i | 0 <= i < m + 1 ensures IsSpace(tail[i]) {
          if i < m {
            assert tail[i] == init[|init| - m..][i];
          }
        }
      }
      m + 1
  }

  /**
   * `s.strip()`: the slice left after dropping whitespace at both ends; the
   * empty string when `s` is all whitespace.
   */
  function Strip(s: string): (r: string)
    ensures Trimmed(r)
  {
    var i := LeadingSpaces(s);
    if i == |s| then []
    else
      var n := TrailingSpaces(s);
      assert n < |s| - i;
      s[i..|s| - n]
  }

  /** `strip()` keeps a slice of its argument and drops only whitespace around it. */
  lemma StripSlice(s: string)
    ensures exists i, j :: 0 <= i <= j <= |s| && Strip(s) == s[i..j] && AllSpace(s[..i]) && AllSpace(s[j..])
  {
    var i := LeadingSpaces(s);
    if i == |s| {
      assert Strip(s) == s[i..i] && AllSpace(s[..i]) && AllSpace(s[i..]);
    } else {
      var j := |s| - TrailingSpaces(s);
      assert Strip(s) == s[i..j] && AllSpace(s[..i]) && AllSpace(s[j..]);
    }
  }

  lemma StripTrimmed(s: string)
    requires Trimmed(s)
    ensures Strip(s) == s
  {
    var i := LeadingSpaces(s);
    assert i == 0;
    var n := TrailingSpaces(s);
    assert n == 0;
  }

  /** A line read back with its terminator: stripping removes only the `\n`. */
  lemma StripLine(s: string)
    requires s != [] && Trimmed(s)
    ensures Strip(s + "\n") == s
  {
    var t := s + "\n";
    assert t[0] == s[0];
    var i := LeadingSpaces(t);
    assert i == 0;
    var n := TrailingSpaces(t);
    assert t[|t| - 2] == s[|s| - 1];
    assert n == 1;
    assert t[..|t| - 1] == s;
  }

  /** `s.split(sep)`: the pieces between occurrences of `sep`; never empty. */
  function Split(s: string, sep: char): (parts: seq<string>)
    ensures |parts| > 0
  {
    if s == [] then [[]]
    else
      var rest := Split(s[1..], sep);
      if s[0] == sep then [[]] + rest else [[s[0]] + rest[0]] + rest[1..]
  }

  /** `sep.join(parts)` */
  function Join(parts: seq<string>, sep: char): (s: string)
    requires |parts| > 0
  {
    if |parts| == 1 then parts[0] else parts[0] + [sep] + Join(parts[1..], sep)
  }

  lemma {:induction false} SplitWhole(p: string, sep: char)
    requires sep !in p
    ensures Split(p, sep) == [p]
  {
    if p != [] {
      SplitWhole(p[1..], sep);
      assert [p[0]] + p[1..] == p;
    }
  }

  lemma {:induction false} SplitAfter(p: string, sep: char, rest: string)
    requires sep !in p
    ensures Split(p + [sep] + rest, sep) == [p] + Split(rest, sep)
  {
    var s := p + [sep] + rest;
    if p == [] {
      assert s[1..] == rest;
    } else {
      assert s[1..] == p[1..] + [sep] + rest;
      SplitAfter(p[1..], sep, rest);
      assert [p[0]] + p[1..] == p;
    }
  }

  /** Splitting a join gives back the parts when no part holds the separator. */
  lemma {:induction false} SplitJoin(parts: seq<string>, sep: char)
    requires |parts| > 0
    requires forall i :: 0 <= i < |parts| ==> sep !in parts[i]
    ensures Split(Join(parts, sep), sep) == parts
  {
    if |parts| == 1 {
      SplitWhole(parts[0], sep);
    } else {
      SplitJoin(parts[1..], sep);
      SplitAfter(parts[0], sep, Join(parts[1..], sep));
      assert [parts[0]] + parts[1..] == parts;
    }
  }

  /** Joining what `split` produced restores the text, and no piece holds the separator. */
  lemma {:induction false} JoinSplit(s: string, sep: char)
    ensures Join(Split(s, sep), sep) == s
    ensures forall i :: 0 <= i < |Split(s, sep)| ==> sep !in Split(s, sep)[i]
  {
    if s != [] {
      JoinSplit(s[1..], sep);
      var rest := Split(s[1..], sep);
      if s[0] == sep {
        assert s == [sep] + s[1..];
      } else {
        var parts := [[s[0]] + rest[0]] + rest[1..];
        assert parts[1..] == rest[1..];
        if |rest| == 1 {
          assert s == [s[0]] + rest[0];
        } else {
          assert Join(rest, sep) == rest[0] + [sep] + Join(rest[1..], sep);
          assert s == [s[0]] + s[1..];
        }
        forall i | 0 <= i < |parts| ensures sep !in parts[i] {
          if i > 0 { assert parts[i] == rest[i]; }
        }
      }
    }
  }

  /** `f.readlines()`: each line keeps its `\n`; the last may lack one; no empty lines. */
  function ReadLines(text: string): (lines: seq<string>)
    ensures forall i :: 0 <= i < |lines| ==> lines[i] != [] && '\n' !in lines[i][..|lines[i]| - 1]
  {
    if text == [] then []
    else
      var rest := ReadLines(text[1..]);
      if text[0] == '\n' || rest == [] then [[text[0]]] + rest
      else [[text[0]] + rest[0]] + rest[1..]
  }

  function Concat(lines: seq<string>): (text: string) {
    if lines == [] then [] else lines[0] + Concat(lines[1..])
  }

  lemma {:induction false} ConcatSnoc(lines: seq<string>, line: string)
    ensures Concat(lines + [line]) == Concat(lines) + line
  {
    if lines != [] {
      assert (lines + [line])[1..] == lines[1..] + [line];
      ConcatSnoc(lines[1..], line);
    }
  }

  /** The lines of a text, put back together, are the text. */
  lemma {:induction false} ConcatReadLines(text: string)
    ensures Concat(ReadLines(text)) == text
  {
    if text != [] {
      ConcatReadLines(text[1..]);
      var rest := ReadLines(text[1..]);
      if text[0] == '\n' || rest == [] {
        var lines := [[text[0]]] + rest;
        assert lines[1..] == rest;
        calc {
          Concat(lines);
          [text[0]] + Concat(rest);
          [text[0]] + text[1..];
          text;
        }
      } else {
        var lines := [[text[0]] + rest[0]] + rest[1..];
        assert lines[1..] == rest[1..];
        calc {
          Concat(lines);
          ([text[0]] + rest[0]) + Concat(rest[1..]);
          [text[0]] + (rest[0] + Concat(rest[1..]));
          [text[0]] + Concat(rest);
          [text[0]] + text[1..];
          text;
        }
      }
    }
  }

  lemma {:induction false} ReadLinesAfter(p: string, rest: string)
    requires '\n' !in p
    ensures ReadLines(p + "\n" + rest) == [p + "\n"] + ReadLines(rest)
  {
    var s := p + "\n" + rest;
    if p == [] {
      assert s[0] == '\n' && s[1..] == rest;
      assert p + "\n" == "\n";
    } else {
      assert s[1..] == p[1..] + "\n" + rest;
      ReadLinesAfter(p[1..], rest);
      assert [p[0]] + (p[1..] + "\n") == p + "\n";
    }
  }

  /** Reading back lines that each end in their only `\n` yields those lines. */
  lemma {:induction false} ReadLinesConcat(lines: seq<string>)
    requires forall i :: 0 <= i < |lines| ==> |lines[i]| > 0 && lines[i][|lines[i]| - 1] == '\n'
                                              && '\n' !in lines[i][..|lines[i]| - 1]
    ensures ReadLines(Concat(lines)) == lines
  {
    if lines != [] {
      var l := lines[0];
      var p := l[..|l| - 1];
      assert l == p + "\n";
      ReadLinesConcat(lines[1..]);
      ReadLinesAfter(p, Concat(lines[1..]));
      assert [lines[0]] + lines[1..] == lines;
    }
  }

  /** `c.lower()` on ASCII letters. */
  function LowerChar(c: char): (lower: char) {
    if 'A' <= c <= 'Z' then (c as int + 32) as char else c
  }

  /** `s.lower()`, folding ASCII letters only. */
  function Lower(s: string): (r: string)
    ensures |r| == |s|
    ensures forall i :: 0 <= i < |s| ==> r[i] == LowerChar(s[i])
  {
    seq(|s|, i requires 0 <= i < |s| => LowerChar(s[i]))
  }

  /** `q in s` for strings: `q` occurs in `s` as a contiguous piece. */
  predicate Contains(s: string, q: string)
    decreases |s|
  {
    q <= s || (s != [] && Contains(s[1..], q))
  }

  ghost predicate OccursAt(s: string, q: string, i: int) {
    0 <= i <= |s| - |q| && s[i..i + |q|] == q
  }

  lemma {:induction false} ContainsAt(s: string, q: string)
    ensures Contains(s, q) <==> exists i :: OccursAt(s, q, i)
  {
    if q <= s {
      assert OccursAt(s, q, 0);
    } else if s == [] {
    } else {
      ContainsAt(s[1..], q);
      if exists i :: OccursAt(s, q, i) {
        var i :| OccursAt(s, q, i);
        assert i != 0;
        assert OccursAt(s[1..], q, i - 1);
      }
      if Contains(s[1..], q) {
        var i :| OccursAt(s[1..], q, i);
        assert OccursAt(s, q, i + 1);
      }
    }
  }
}
