/**
  * The string helpers the news scrapers rely on: Python's `str.strip()`,
  * `str.split(sep)` and `sep.join(...)`, and the two list filters of
  * `get_full_article_content` (non-empty paragraphs, lines longer than ten
  * characters).  A `string` is a sequence of Unicode code points, as a
  * Python `str` is, so `len` is `|s|`.
  */
module Text {

  /** `c.isspace()`, which is also what `\s` matches in a `str` pattern. */
  predicate IsSpace(c: char)
  {
    var n := c as int;
    (9 <= n <= 13) || (28 <= n <= 32) || n == 0x85 || n == 0xA0 || n == 0x1680 ||
    (0x2000 <= n <= 0x200A) || n == 0x2028 || n == 0x2029 || n == 0x202F || n == 0x205F || n == 0x3000
  }

  predicate AllSpace(s: string)
  {
    forall i :: 0 <= i < |s| ==> IsSpace(s[i])
  }

  /** Neither end of the string is white space. */
  predicate Trimmed(s: string)
  {
    s == [] || (!IsSpace(s[0]) && !IsSpace(s[|s| - 1]))
  }

  /** `s.lstrip()`. */
  function StripLeft(s: string): string
  {
    if s != [] && IsSpace(s[0]) then StripLeft(s[1..]) else s
  }

  /** `s.rstrip()`. */
  function StripRight(s: string): string
  {
    if s != [] && IsSpace(s[|s| - 1]) then StripRight(s[..|s| - 1]) else s
  }

  /** `lstrip` removes a prefix of white space and leaves a string that does not begin with any. */
  lemma {:induction false} StripLeftShape(s: string)
    ensures var r := StripLeft(s);
            |r| <= |s| && r == s[|s| - |r|..] && AllSpace(s[..|s| - |r|]) && (r == [] || !IsSpace(r[0]))
  {
    if s != [] && IsSpace(s[0]) {
      StripLeftShape(s[1..]);
      var r := StripLeft(s[1..]);
      assert s[..|s| - |r|] == [s[0]] + s[1..][..|s[1..]| - |r|];
      assert s[1..][|s[1..]| - |r|..] == s[|s| - |r|..];
    }
  }

  /** `rstrip` removes a suffix of white space and leaves a string that does not end with any. */
  lemma {:induction false} StripRightShape(s: string)
    ensures var r := StripRight(s);
            |r| <= |s| && r == s[..|r|] && AllSpace(s[|r|..]) && (r == [] || !IsSpace(r[|r| - 1]))
  {
    if s != [] && IsSpace(s[|s| - 1]) {
      StripRightShape(s[..|s| - 1]);
      var r := StripRight(s[..|s| - 1]);
      assert s[|r|..] == s[..|s| - 1][|r|..] + [s[|s| - 1]];
      assert s[..|s| - 1][..|r|] == s[..|r|];
    }
  }

  /** `s.strip()`. */
  function Strip(s: string): string
    decreases |s|
  {
    if s != [] && IsSpace(s[0]) then Strip(s[1..])
    else if s != [] && IsSpace(s[|s| - 1]) then Strip(s[..|s| - 1])
    else s
  }

  /** Stripping both ends at once is `lstrip` followed by `rstrip`. */
  lemma {:induction false} StripLeftRight(s: string)
    ensures Strip(s) == StripRight(StripLeft(s))
    decreases |s|
  {
    if s != [] && IsSpace(s[0]) {
      StripLeftRight(s[1..]);
    } else if s != [] && IsSpace(s[|s| - 1]) {
      var t := s[..|s| - 1];
      StripLeftRight(t);
      assert |s| >= 2;
      assert t[0] == s[0];
    }
  }

  /**
    * `s.lstrip().rstrip()` is the infix of `s` left after removing the white
    * space at both ends: what is removed, the first `i` characters and those
    * after the infix, is white space, and what is left does not begin or end
    * with white space.
    */
  lemma LeftRightShape(s: string)
    ensures var r := StripRight(StripLeft(s));
            var i := |s| - |StripLeft(s)|;
            Trimmed(r) && 0 <= i <= |s| - |r| && r == s[i..i + |r|] && AllSpace(s[..i]) && AllSpace(s[i + |r|..])
  {
    var l := StripLeft(s);
    StripLeftShape(s);
    var r := StripRight(l);
    StripRightShape(l);
    var i := |s| - |l|;
    DropTake(s, i, |r|);
    if r != [] {
      assert r[0] == l[0];
    }
  }

  /** Slicing a suffix is slicing the whole. */
  lemma DropTake(s: string, i: nat, k: nat)
    requires i + k <= |s|
    ensures s[i..][..k] == s[i..i + k] && s[i..][k..] == s[i + k..]
  {
  }

  /** `s.strip()` is that infix, so neither begins nor ends with white space. */
  lemma StripShape(s: string)
    ensures Strip(s) == StripRight(StripLeft(s)) && Trimmed(Strip(s))
  {
    LeftRightShape(s);
    StripLeftRight(s);
  }

  /** What `strip` returns neither begins nor ends with white space. */
  lemma StripTrims(s: string)
    ensures Trimmed(Strip(s))
  {
    StripShape(s);
  }

  /** A string that does not begin or end with white space is its own strip. */
  lemma StripTrimmed(s: string)
    requires Trimmed(s)
    ensures Strip(s) == s
  {
  }

  /** Stripping twice is stripping once. */
  lemma StripIdempotent(s: string)
    ensures Strip(Strip(s)) == Strip(s)
  {
    StripShape(s);
    StripTrimmed(Strip(s));
  }

  /** `lstrip` removes all of a string of white space. */
  lemma {:induction false} AllSpaceStripLeft(s: string)
    requires AllSpace(s)
    ensures StripLeft(s) == []
  {
    if s != [] {
      assert IsSpace(s[0]);
      AllSpaceStripLeft(s[1..]);
    }
  }

  /** `s.strip()` is empty exactly when `s` is all white space. */
  lemma StripEmptyIff(s: string)
    ensures Strip(s) == [] <==> AllSpace(s)
  {
    StripLeftRight(s);
    var l := StripLeft(s);
    StripLeftShape(s);
    var r := StripRight(l);
    StripRightShape(l);
    if AllSpace(s) {
      AllSpaceStripLeft(s);
    }
    if Strip(s) == [] {
      assert l[|r|..] == l;
      assert l == [];
      assert s[..|s| - |l|] == s;
    }
  }

  // ---------------------------------------------------------------------
  // split and join

  /** `s.split(sep)` for a one-character separator: always at least one piece. */
  function Split(s: string, sep: char): (parts: seq<string>)
    ensures |parts| >= 1
    ensures forall k :: 0 <= k < |parts| ==> sep !in parts[k]
  {
    if s == [] then [[]]
    else
      var rest := Split(s[1..], sep);
      if s[0] == sep then [[]] + rest
      else
        assert forall k :: 1 <= k < |rest| ==> rest[1..][k - 1] == rest[k];
        [[s[0]] + rest[0]] + rest[1..]
  }

  /** `sep.join(parts)`. */
  function Join(parts: seq<string>, sep: char): string
  {
    if |parts| == 0 then []
    else if |parts| == 1 then parts[0]
    else parts[0] + [sep] + Join(parts[1..], sep)
  }

  /** Joining the pieces of a split gives back the string. */
  lemma {:induction false} JoinSplit(s: string, sep: char)
    ensures Join(Split(s, sep), sep) == s
  {
    if s != [] {
      var rest := Split(s[1..], sep);
      JoinSplit(s[1..], sep);
      if s[0] == sep {
        assert Split(s, sep) == [[]] + rest;
        assert s == [sep] + s[1..];
      } else {
        var parts := [[s[0]] + rest[0]] + rest[1..];
        assert Split(s, sep) == parts;
        if |rest| == 1 {
          assert Join(rest, sep) == rest[0];
        } else {
          assert rest == [rest[0]] + rest[1..];
          assert Join(rest, sep) == rest[0] + [sep] + Join(rest[1..], sep);
          assert parts[1..] == rest[1..];
        }
      }
    }
  }

  /** Splitting a join of pieces free of the separator gives back the pieces. */
  lemma {:induction false} SplitJoin(parts: seq<string>, sep: char)
    requires |parts| >= 1
    requires forall k :: 0 <= k < |parts| ==> sep !in parts[k]
    ensures Split(Join(parts, sep), sep) == parts
    decreases parts, 0
  {
    if |parts| == 1 {
      SplitFree(parts[0], sep);
    } else {
      SplitJoin(parts[1..], sep);
      SplitPrefix(parts[0], Join(parts[1..], sep), sep);
      assert parts == [parts[0]] + parts[1..];
    }
  }

  /** A string free of the separator is one piece. */
  lemma {:induction false} SplitFree(s: string, sep: char)
    requires sep !in s
    ensures Split(s, sep) == [s]
  {
    if s != [] {
      SplitFree(s[1..], sep);
      assert [s[0]] + s[1..] == s;
    }
  }

  /** A separator-free prefix followed by the separator becomes the first piece. */
  lemma {:induction false} SplitPrefix(p: string, rest: string, sep: char)
    requires sep !in p
    ensures Split(p + [sep] + rest, sep) == [p] + Split(rest, sep)
  {
    if p == [] {
      assert p + [sep] + rest == [sep] + rest;
      assert ([sep] + rest)[1..] == rest;
    } else {
      var s := p + [sep] + rest;
      assert s[1..] == p[1..] + [sep] + rest;
      SplitPrefix(p[1..], rest, sep);
      assert [p[0]] + p[1..] == p;
    }
  }

  // ---------------------------------------------------------------------
  // The article filters

  /** Lines of more than this many characters are kept. */
  const MinLineLength := 10

  /** `[line for line in content if len(line) > 10]`. */
  function LongLines(content: seq<string>): (kept: seq<string>)
  {
    if content == [] then []
    else
      var n := |content| - 1;
      LongLines(content[..n]) + if |content[n]| > MinLineLength then [content[n]] else []
  }

  /** A line is kept iff it is one of the lines and is long enough; every kept line is long enough. */
  lemma {:induction false} LongLinesMembers(content: seq<string>)
    ensures forall l :: l in LongLines(content) <==> l in content && |l| > MinLineLength
  {
    if content != [] {
      var n := |content| - 1;
      LongLinesMembers(content[..n]);
      assert content == content[..n] + [content[n]];
    }
  }

  /** The filter keeps the order: filtering a concatenation is concatenating the filtered parts. */
  lemma {:induction false} LongLinesAppend(a: seq<string>, b: seq<string>)
    ensures LongLines(a + b) == LongLines(a) + LongLines(b)
    decreases |b|
  {
    if b != [] {
      var n := |b| - 1;
      LongLinesAppend(a, b[..n]);
      assert (a + b)[..|a + b| - 1] == a + b[..n];
    } else {
      assert a + b == a;
    }
  }

  /** The paragraphs that are not empty (`if text: content.append(text)`). */
  function NonEmpty(texts: seq<string>): seq<string>
  {
    if texts == [] then []
    else
      var n := |texts| - 1;
      NonEmpty(texts[..n]) + if texts[n] != [] then [texts[n]] else []
  }

  /** A text is kept iff it is one of the texts and is not empty. */
  lemma {:induction false} NonEmptyMembers(texts: seq<string>)
    ensures forall t :: t in NonEmpty(texts) <==> t in texts && t != []
  {
    if texts != [] {
      var n := |texts| - 1;
      NonEmptyMembers(texts[..n]);
      assert texts == texts[..n] + [texts[n]];
    }
  }

  /** `for p in selector: text = p.get_text(strip=True); if text: content.append(text)`. */
  method CollectTexts(texts: seq<string>) returns (content: seq<string>)
    ensures content == NonEmpty(texts)
  {
    content := [];
    for i := 0 to |texts|
      invariant content == NonEmpty(texts[..i])
    {
      assert texts[..i + 1][..i] == texts[..i];
      if texts[i] != [] {
        content := content + [texts[i]];
      }
    }
    assert texts[..|texts|] == texts;
  }

  /** `[line.strip() for line in lines if line.strip()]`. */
  function StrippedLines(lines: seq<string>): seq<string>
  {
    if lines == [] then []
    else
      var n := |lines| - 1;
      StrippedLines(lines[..n]) + if Strip(lines[n]) != [] then [Strip(lines[n])] else []
  }

  /** Every stripped line is trimmed and not empty. */
  lemma {:induction false} StrippedLinesTrimmed(lines: seq<string>)
    ensures forall l :: l in StrippedLines(lines) ==> l != [] && Trimmed(l)
  {
    if lines != [] {
      var n := |lines| - 1;
      StrippedLinesTrimmed(lines[..n]);
      StripTrims(lines[n]);
      var last := if Strip(lines[n]) != [] then [Strip(lines[n])] else [];
      assert StrippedLines(lines) == StrippedLines(lines[..n]) + last;
      assert forall l :: l in last ==> l == Strip(lines[n]) && l != [];
    }
  }

  /** Stripping removes characters and never adds one. */
  lemma StripSubset(s: string)
    ensures forall c :: c in Strip(s) ==> c in s
  {
    StripLeftRight(s);
    var l := StripLeft(s);
    StripLeftShape(s);
    StripRightShape(l);
    assert forall c :: c in l ==> c in s by {
      forall c | c in l ensures c in s {
        var i :| 0 <= i < |l| && l[i] == c;
        assert s[|s| - |l| + i] == c;
      }
    }
    var r := StripRight(l);
    assert forall c :: c in r ==> c in l by {
      forall c | c in r ensures c in l {
        var i :| 0 <= i < |r| && r[i] == c;
        assert l[i] == c;
      }
    }
  }

  /** Stripped lines of pieces free of a character are free of it too. */
  lemma {:induction false} StrippedLinesFree(lines: seq<string>, c: char)
    requires forall l :: l in lines ==> c !in l
    ensures forall l :: l in StrippedLines(lines) ==> c !in l
  {
    if lines != [] {
      var n := |lines| - 1;
      forall l | l in lines[..n] ensures c !in l {
        var i :| 0 <= i < n && lines[..n][i] == l;
        assert lines[i] == l;
      }
      StrippedLinesFree(lines[..n], c);
      assert lines[n] in lines;
      StripSubset(lines[n]);
      assert StrippedLines(lines) == StrippedLines(lines[..n]) +
        if Strip(lines[n]) != [] then [Strip(lines[n])] else [];
    }
  }

  /** A join of non-empty lines begins with the first line's first character and ends with the last line's last. */
  lemma {:induction false} JoinEnds(lines: seq<string>, sep: char)
    requires |lines| >= 1 && forall k :: 0 <= k < |lines| ==> lines[k] != []
    ensures var j := Join(lines, sep);
            |j| > 0 && j[0] == lines[0][0] && j[|j| - 1] == lines[|lines| - 1][|lines[|lines| - 1]| - 1]
  {
    if |lines| > 1 {
      var tail := lines[1..];
      assert forall k :: 0 <= k < |tail| ==> tail[k] == lines[k + 1];
      JoinEnds(tail, sep);
      var rest := Join(tail, sep);
      var head := lines[0] + [sep];
      assert Join(lines, sep) == head + rest;
      assert tail[|tail| - 1] == lines[|lines| - 1];
      assert (head + rest)[0] == head[0];
      assert (head + rest)[|head| + |rest| - 1] == rest[|rest| - 1];
    }
  }

  /** Joining non-empty trimmed lines gives trimmed text, which stripping leaves alone. */
  lemma JoinTrimmed(lines: seq<string>, sep: char)
    requires forall l :: l in lines ==> l != [] && Trimmed(l)
    ensures Trimmed(Join(lines, sep)) && Strip(Join(lines, sep)) == Join(lines, sep)
  {
    if lines != [] {
      assert forall k :: 0 <= k < |lines| ==> lines[k] in lines;
      JoinEnds(lines, sep);
    }
    StripTrimmed(Join(lines, sep));
  }

  /** `'\n'.join(filtered).strip()`. */
  function JoinLines(lines: seq<string>): string
  {
    Strip(Join(lines, '\n'))
  }
}
