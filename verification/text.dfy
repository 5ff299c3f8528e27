/**
 * The string operations the sanitisers rely on: Python's `str.strip()`,
 * `re.sub(r"\s+", " ", s)`, ASCII `str.lower()`, and integer formatting.
 */
module Text {

  /**
   * Python's `str.isspace()` for one character; the regular-expression class `\s`
   * on `str` patterns matches the same characters.
   */
  predicate IsSpace(c: char) {
    var n := c as int;
    (9 <= n <= 13) || (28 <= n <= 32) || n == 0x85 || n == 0xA0 || n == 0x1680
    || (0x2000 <= n <= 0x200A) || n == 0x2028 || n == 0x2029 || n == 0x202F
    || n == 0x205F || n == 0x3000
  }

  /** Every character of `s` is whitespace (vacuously so for ""). */
  predicate AllSpace(s: string) {
    forall i :: 0 <= i < |s| ==> IsSpace(s[i])
  }

  /** No whitespace at either end. */
  predicate Trimmed(s: string) {
    s == [] || (!IsSpace(s[0]) && !IsSpace(s[|s| - 1]))
  }

  /** Every whitespace character is a plain space, and no two are adjacent. */
  predicate SingleSpaced(s: string) {
    forall i :: 0 <= i < |s| && IsSpace(s[i]) ==> s[i] == ' ' && (i + 1 < |s| ==> !IsSpace(s[i + 1]))
  }

  /** The non-whitespace characters of `s`, in order. */
  function NonSpace(s: string): string {
    if s == [] then []
    else (if IsSpace(s[0]) then [] else [s[0]]) + NonSpace(s[1..])
  }

  /** Python's `s.lstrip()`. */
  function LStrip(s: string): (r: string)
    ensures |r| <= |s| && r == s[|s| - |r|..]
    ensures r == [] || !IsSpace(r[0])
    ensures AllSpace(s[..|s| - |r|])
    ensures NonSpace(r) == NonSpace(s)
    decreases |s|
  {
    if s != [] && IsSpace(s[0]) then
      var r := LStrip(s[1..]);
      assert s[..|s| - |r|] == [s[0]] + s[1..][..|s| - 1 - |r|];
      r
    else s
  }

  /** Python's `s.rstrip()`. */
  function RStrip(s: string): (r: string)
    ensures |r| <= |s| && r == s[..|r|]
    ensures r == [] || !IsSpace(r[|r| - 1])
    ensures AllSpace(s[|r|..])
    decreases |s|
  {
    if s != [] && IsSpace(s[|s| - 1]) then
      var r := RStrip(s[..|s| - 1]);
      assert s[|r|..] == s[..|s| - 1][|r|..] + [s[|s| - 1]];
      r
    else s
  }

  /** Python's `s.strip()`. */
  function Strip(s: string): (r: string)
    ensures Trimmed(r)
    ensures r == [] <==> AllSpace(s)
    ensures |r| <= |s|
  {
    var l := LStrip(s);
    var r := RStrip(l);
    assert r == [] ==> AllSpace(s) by {
      if r == [] {
        assert AllSpace(l[|r|..]);
        assert s == s[..|s| - |l|] + l;
      }
    }
    assert r != [] ==> !AllSpace(s) by {
      if r != [] {
        assert r[0] == l[0] == s[|s| - |l|];
      }
    }
    r
  }

  /**
   * `re.sub(r"\s+", " ", s)`: every maximal run of whitespace becomes one space.
   */
  function CollapseSpaces(s: string): (r: string)
    ensures |r| <= |s|
    ensures r == [] <==> s == []
    decreases |s|
  {
    if s == [] then [] else [Mark(s[0])] + CollapseSpaces(CollapseRest(s))
  }

  /** What one character, or the run of whitespace it starts, is replaced by. */
  function Mark(c: char): char {
    if IsSpace(c) then ' ' else c
  }

  /** What follows the first character, or the whole run of whitespace it starts. */
  function CollapseRest(s: string): (r: string)
    requires s != []
    ensures |r| < |s| && r == s[|s| - |r|..]
  {
    if IsSpace(s[0]) then LStrip(s) else s[1..]
  }

  /** Collapsing keeps a non-whitespace first character, and whitespace-ness at both ends. */
  lemma CollapseEnds(s: string)
    ensures var r := CollapseSpaces(s);
      r != [] ==> (IsSpace(r[0]) <==> IsSpace(s[0])) && (!IsSpace(s[0]) ==> r[0] == s[0])
                  && (IsSpace(r[|r| - 1]) <==> IsSpace(s[|s| - 1]))
  {
    if s != [] {
      CollapseLast(s);
    }
  }

  /** The last character of the collapsed text: a space for a whitespace run, else unchanged. */
  lemma {:induction false} CollapseLast(s: string)
    requires s != []
    ensures var r := CollapseSpaces(s); r[|r| - 1] == Mark(s[|s| - 1])
    decreases |s|
  {
    var rest := CollapseRest(s);
    assert CollapseSpaces(s) == [Mark(s[0])] + CollapseSpaces(rest);
    if rest == [] {
      RestEmpty(s);
    } else {
      CollapseLast(rest);
      assert rest[|rest| - 1] == s[|s| - 1];
    }
  }

  /** Collapsing text without whitespace at its ends leaves none there. */
  lemma CollapseTrimmed(u: string)
    requires u != [] && Trimmed(u)
    ensures Trimmed(CollapseSpaces(u))
  {
    var t := CollapseSpaces(u);
    CollapseLast(u);
    assert t[0] == Mark(u[0]);
  }

  /** A single step consumes everything only when the text is one character or all whitespace. */
  lemma RestEmpty(s: string)
    requires s != [] && CollapseRest(s) == []
    ensures Mark(s[0]) == Mark(s[|s| - 1])
  {
    if IsSpace(s[0]) {
      assert AllSpace(s[..|s|]);
      assert IsSpace(s[..|s|][|s| - 1]);
    }
  }

  /** After a whitespace run comes a non-whitespace character, if anything. */
  lemma RestAfterRun(s: string)
    requires s != [] && IsSpace(s[0])
    ensures var rest := CollapseRest(s); rest == [] || !IsSpace(rest[0])
  {
  }

  lemma {:induction false} CollapseSingleSpaced(s: string)
    ensures SingleSpaced(CollapseSpaces(s))
    decreases |s|
  {
    if s != [] {
      var rest := CollapseRest(s);
      var t := CollapseSpaces(rest);
      CollapseSingleSpaced(rest);
      var r := CollapseSpaces(s);
      assert r == [Mark(s[0])] + t;
      if IsSpace(s[0]) && rest != [] {
        RestAfterRun(s);
        assert t[0] == Mark(rest[0]) == rest[0];
      }
      forall i | 0 <= i < |r| && IsSpace(r[i])
        ensures r[i] == ' ' && (i + 1 < |r| ==> !IsSpace(r[i + 1]))
      {
        if i > 0 {
          assert r[i] == t[i - 1];
          if i + 1 < |r| {
            assert r[i + 1] == t[i];
          }
        } else if i + 1 < |r| {
          assert r[1] == t[0];
        }
      }
    }
  }

  lemma {:induction false} CollapseNonSpace(s: string)
    ensures NonSpace(CollapseSpaces(s)) == NonSpace(s)
    decreases |s|
  {
    if s != [] {
      var rest := CollapseRest(s);
      CollapseNonSpace(rest);
      var r := CollapseSpaces(s);
      assert r == [Mark(s[0])] + CollapseSpaces(rest);
      assert r[1..] == CollapseSpaces(rest);
      assert NonSpace(s) == (if IsSpace(s[0]) then [] else [s[0]]) + NonSpace(rest) by {
        if !IsSpace(s[0]) {
          assert rest == s[1..];
        }
      }
    }
  }

  /** Whitespace contributes nothing to the non-whitespace characters of a concatenation. */
  lemma {:induction false} NonSpaceAppend(a: string, b: string)
    ensures NonSpace(a + b) == NonSpace(a) + NonSpace(b)
    decreases |a|
  {
    if a != [] {
      assert (a + b)[1..] == a[1..] + b;
      NonSpaceAppend(a[1..], b);
    } else {
      assert a + b == b;
    }
  }

  lemma {:induction false} NonSpaceOfAllSpace(w: string)
    requires AllSpace(w)
    ensures NonSpace(w) == []
    decreases |w|
  {
    if w != [] {
      NonSpaceOfAllSpace(w[1..]);
    }
  }

  /** Stripping removes whitespace only: the non-whitespace characters are all kept, in order. */
  lemma StripNonSpace(s: string)
    ensures NonSpace(Strip(s)) == NonSpace(s)
  {
    var l := LStrip(s);
    var r := RStrip(l);
    assert Strip(s) == r;
    NonSpaceSpaceTail(l, r);
  }

  /** Dropping a tail of whitespace keeps the non-whitespace characters. */
  lemma NonSpaceSpaceTail(l: string, r: string)
    requires |r| <= |l| && r == l[..|r|] && AllSpace(l[|r|..])
    ensures NonSpace(r) == NonSpace(l)
  {
    var w := l[|r|..];
    assert l == r + w;
    NonSpaceAppend(r, w);
    NonSpaceOfAllSpace(w);
  }

  /** No character of `s` is whitespace. */
  predicate NoSpace(s: string) {
    forall i :: 0 <= i < |s| ==> !IsSpace(s[i])
  }

  /**
   * Python's `s.split()`: the maximal runs of non-whitespace characters, in order. A
   * visible character starts a word of its own when the next one is whitespace or the
   * end, and otherwise opens the word of the next one.
   */
  function Words(s: string): (ws: seq<string>)
    ensures s != [] && !IsSpace(s[0]) ==> ws != []
    decreases |s|
  {
    if s == [] then []
    else
      var ws := Words(s[1..]);
      if IsSpace(s[0]) then ws
      else if |s| > 1 && !IsSpace(s[1]) then [[s[0]] + ws[0]] + ws[1..]
      else [[s[0]]] + ws
  }

  /** Every word is non-empty and free of whitespace. */
  lemma {:induction false} WordsShape(s: string)
    ensures forall k :: 0 <= k < |Words(s)| ==> Words(s)[k] != [] && NoSpace(Words(s)[k])
    decreases |s|
  {
    if s != [] {
      var ws := Words(s[1..]);
      WordsShape(s[1..]);
      if !IsSpace(s[0]) {
        if |s| > 1 && !IsSpace(s[1]) {
          assert s[1..][0] == s[1];
          assert ws != [] && NoSpace(ws[0]);
          NoSpaceCons(s[0], ws[0]);
          assert Words(s) == [[s[0]] + ws[0]] + ws[1..];
        } else {
          NoSpaceCons(s[0], []);
          assert [s[0]] + [] == [s[0]];
          assert Words(s) == [[s[0]]] + ws;
        }
      }
    }
  }

  /** A visible character in front of a whitespace-free word leaves it whitespace-free. */
  lemma NoSpaceCons(c: char, w: string)
    requires !IsSpace(c) && NoSpace(w)
    ensures NoSpace([c] + w)
  {
    var v := [c] + w;
    forall i | 0 <= i < |v| ensures !IsSpace(v[i]) {
      if i > 0 {
        assert v[i] == w[i - 1];
      }
    }
  }

  /** The words hold exactly the visible characters, in order. */
  lemma {:induction false} WordsNonSpace(s: string)
    ensures JoinWords("", Words(s)) == NonSpace(s)
    decreases |s|
  {
    if s != [] {
      var ws := Words(s[1..]);
      WordsNonSpace(s[1..]);
      if !IsSpace(s[0]) {
        if |s| > 1 && !IsSpace(s[1]) {
          JoinPrefix("", [s[0]], ws);
        } else {
          JoinSingle("", [s[0]], ws);
        }
      }
    }
  }

  /** `sep.join(ws)`. */
  function JoinWords(sep: string, ws: seq<string>): string
    decreases |ws|
  {
    if ws == [] then [] else if |ws| == 1 then ws[0] else ws[0] + sep + JoinWords(sep, ws[1..])
  }

  /** Prefixing the first word prefixes the joined text. */
  lemma JoinPrefix(sep: string, c: string, ws: seq<string>)
    requires ws != []
    ensures JoinWords(sep, [c + ws[0]] + ws[1..]) == c + JoinWords(sep, ws)
  {
    var vs := [c + ws[0]] + ws[1..];
    assert vs[1..] == ws[1..];
    if |ws| > 1 {
      StringAssoc(c, ws[0], sep);
      StringAssoc(c, ws[0] + sep, JoinWords(sep, ws[1..]));
    }
  }

  lemma StringAssoc(a: string, b: string, c: string)
    ensures (a + b) + c == a + (b + c)
  {
  }

  /** Joining a word in front of others puts one separator between them. */
  lemma JoinSingle(sep: string, w: string, ws: seq<string>)
    ensures JoinWords(sep, [w] + ws) == if ws == [] then w else w + sep + JoinWords(sep, ws)
  {
    assert ([w] + ws)[1..] == ws;
  }

  /**
   * Collapsing the stripped text is joining its words with single spaces: the spaces
   * stand exactly at the word boundaries, one per boundary.
   */
  lemma CollapseWords(s: string)
    ensures CollapseSpaces(Strip(s)) == JoinWords(" ", Words(s))
  {
    var u := Strip(s);
    CollapseRightTrimmedWords(u);
    assert Lead(u) == "";
    WordsOfStrip(s);
  }

  /**
   * On text that does not end in whitespace, collapsing gives one space for a leading run
   * of whitespace, then the words joined with single spaces.
   */
  lemma {:induction false} CollapseRightTrimmedWords(s: string)
    requires s == [] || !IsSpace(s[|s| - 1])
    ensures CollapseSpaces(s) == Lead(s) + JoinWords(" ", Words(s))
    decreases |s|
  {
    if s != [] {
      if IsSpace(s[0]) {
        LStripKeepsLast(s);
        CollapseRightTrimmedWords(LStrip(s));
        SpaceLedStep(s);
      } else if |s| == 1 {
        assert Words(s) == [[s[0]]];
      } else {
        var t := s[1..];
        assert t[|t| - 1] == s[|s| - 1];
        CollapseRightTrimmedWords(t);
        CollapseWordStep(s);
      }
    }
  }

  /** One space for a leading run of whitespace, else nothing. */
  function Lead(s: string): string {
    if s != [] && IsSpace(s[0]) then " " else ""
  }

  /** A leading run of whitespace becomes one space, and the words are those after it. */
  lemma SpaceLedStep(s: string)
    requires s != [] && IsSpace(s[0])
    requires CollapseSpaces(LStrip(s)) == Lead(LStrip(s)) + JoinWords(" ", Words(LStrip(s)))
    ensures CollapseSpaces(s) == Lead(s) + JoinWords(" ", Words(s))
  {
    var v := LStrip(s);
    var j := JoinWords(" ", Words(v));
    WordsOfLStrip(s);
    assert Lead(v) == "" by {
      LStripHead(s);
    }
    assert CollapseSpaces(v) == j;
    CollapseSpaceHead(s);
  }

  /** What `lstrip` leaves starts with a visible character, if with anything. */
  lemma LStripHead(s: string)
    ensures LStrip(s) == [] || !IsSpace(LStrip(s)[0])
  {
  }

  /** A leading run of whitespace becomes one space, and the collapse goes on after it. */
  lemma CollapseSpaceHead(s: string)
    requires s != [] && IsSpace(s[0])
    ensures CollapseSpaces(s) == [' '] + CollapseSpaces(LStrip(s))
  {
    assert CollapseRest(s) == LStrip(s);
  }

  /** Left-stripping text that ends in a visible character keeps that character last. */
  lemma LStripKeepsLast(s: string)
    requires s != [] && !IsSpace(s[|s| - 1])
    ensures var v := LStrip(s); v != [] && v[|v| - 1] == s[|s| - 1] && !IsSpace(v[|v| - 1])
  {
    LStripRun(s);
  }

  /** One step of the collapse at a visible character, given the collapse of the rest. */
  lemma CollapseWordStep(s: string)
    requires |s| > 1 && !IsSpace(s[0]) && !IsSpace(s[|s| - 1])
    requires CollapseSpaces(s[1..]) == Lead(s[1..]) + JoinWords(" ", Words(s[1..]))
    ensures CollapseSpaces(s) == JoinWords(" ", Words(s))
  {
    var j := JoinWords(" ", Words(s[1..]));
    CollapseVisibleHead(s);
    if !IsSpace(s[1]) {
      assert CollapseSpaces(s[1..]) == j;
      InWordStep(s);
    } else {
      assert CollapseSpaces(s[1..]) == " " + j;
      WordEndStep(s);
    }
  }

  /** A visible first character is copied, and the collapse goes on with the rest. */
  lemma CollapseVisibleHead(s: string)
    requires s != [] && !IsSpace(s[0])
    ensures CollapseSpaces(s) == [s[0]] + CollapseSpaces(s[1..])
  {
  }

  /** A visible character followed by another opens the next word. */
  lemma InWordStep(s: string)
    requires |s| > 1 && !IsSpace(s[0]) && !IsSpace(s[1])
    ensures [s[0]] + JoinWords(" ", Words(s[1..])) == JoinWords(" ", Words(s))
  {
    var ws := Words(s[1..]);
    assert s[1..][0] == s[1];
    assert Words(s) == [[s[0]] + ws[0]] + ws[1..];
    JoinPrefix(" ", [s[0]], ws);
  }

  /** A visible character followed by whitespace ends a word, and a separator follows. */
  lemma WordEndStep(s: string)
    requires |s| > 1 && !IsSpace(s[0]) && IsSpace(s[1]) && !IsSpace(s[|s| - 1])
    ensures [s[0]] + (" " + JoinWords(" ", Words(s[1..]))) == JoinWords(" ", Words(s))
  {
    var t := s[1..];
    var ws := Words(t);
    assert Words(s) == [[s[0]]] + ws;
    assert t[|t| - 1] == s[|s| - 1];
    WordsNonEmpty(t);
    JoinSingle(" ", [s[0]], ws);
    StringAssoc([s[0]], " ", JoinWords(" ", ws));
  }

  /** Text that ends in a visible character has a word. */
  lemma {:induction false} WordsNonEmpty(s: string)
    requires s != [] && !IsSpace(s[|s| - 1])
    ensures Words(s) != []
    decreases |s|
  {
    if IsSpace(s[0]) {
      assert s[1..][|s| - 2] == s[|s| - 1];
      WordsNonEmpty(s[1..]);
    }
  }

  /** Leading whitespace does not change the words. */
  lemma {:induction false} WordsOfLStrip(s: string)
    ensures Words(LStrip(s)) == Words(s)
    decreases |s|
  {
    if s != [] && IsSpace(s[0]) {
      WordsOfLStrip(s[1..]);
    }
  }

  /** Stripping does not change the words. */
  lemma WordsOfStrip(s: string)
    ensures Words(Strip(s)) == Words(s)
  {
    var l := LStrip(s);
    var r := RStrip(l);
    StripParts(s);
    WordsOfLStrip(s);
    RStripSplit(l);
    WordsAppendSpace(r, l[|r|..]);
  }

  /** `strip` is `lstrip` then `rstrip`. */
  lemma StripParts(s: string)
    ensures Strip(s) == RStrip(LStrip(s))
  {
  }

  /** `rstrip` cuts off a tail of whitespace. */
  lemma RStripSplit(l: string)
    ensures var r := RStrip(l); l == r + l[|r|..] && AllSpace(l[|r|..])
  {
    var r := RStrip(l);
    assert l == l[..|r|] + l[|r|..];
  }

  /** Trailing whitespace does not change the words. */
  lemma {:induction false} WordsAppendSpace(x: string, sp: string)
    requires AllSpace(sp)
    ensures Words(x + sp) == Words(x)
    decreases |x|
  {
    if x == [] {
      assert x + sp == sp;
      WordsOfAllSpace(sp);
    } else {
      var y := x + sp;
      assert y[0] == x[0];
      assert y[1..] == x[1..] + sp;
      WordsAppendSpace(x[1..], sp);
      if |x| == 1 && |y| > 1 {
        assert y[1] == sp[0];
      } else if |x| > 1 {
        assert y[1] == x[1];
      }
    }
  }

  /** Whitespace-only text has no words. */
  lemma {:induction false} WordsOfAllSpace(s: string)
    requires AllSpace(s)
    ensures Words(s) == []
    decreases |s|
  {
    if s != [] {
      WordsOfAllSpace(s[1..]);
    }
  }

  /** Stripping text without whitespace at either end changes nothing. */
  lemma StripTrimmed(s: string)
    requires Trimmed(s)
    ensures Strip(s) == s
  {
  }

  /** Collapsing text that is already single-spaced changes nothing. */
  lemma {:induction false} CollapseSingleSpacedFixed(s: string)
    requires SingleSpaced(s)
    ensures CollapseSpaces(s) == s
    decreases |s|
  {
    if s != [] {
      SingleSpacedTail(s);
      CollapseSingleSpacedFixed(s[1..]);
      SingleSpacedStep(s);
      assert CollapseSpaces(s) == [Mark(s[0])] + CollapseSpaces(CollapseRest(s));
      HeadTail(s);
    }
  }

  lemma HeadTail(s: string)
    requires s != []
    ensures s == [s[0]] + s[1..]
  {
  }

  lemma SingleSpacedTail(s: string)
    requires SingleSpaced(s) && s != []
    ensures SingleSpaced(s[1..])
  {
    forall i | 0 <= i < |s[1..]| && IsSpace(s[1..][i])
      ensures s[1..][i] == ' ' && (i + 1 < |s[1..]| ==> !IsSpace(s[1..][i + 1]))
    {
      assert s[1..][i] == s[i + 1];
    }
  }

  /** In single-spaced text every step of the collapse copies exactly one character. */
  lemma SingleSpacedStep(s: string)
    requires SingleSpaced(s) && s != []
    ensures Mark(s[0]) == s[0] && CollapseRest(s) == s[1..]
  {
    if IsSpace(s[0]) {
      var r := LStrip(s);
      var k := |s| - |r|;
      LStripRun(s);
      assert r != [] ==> r[0] == s[k];
      assert k == 1;
    }
  }

  /** Every character `lstrip` removes is whitespace. */
  lemma LStripRun(s: string)
    ensures forall i :: 0 <= i < |s| - |LStrip(s)| ==> IsSpace(s[i])
  {
    var k := |s| - |LStrip(s)|;
    forall i | 0 <= i < k ensures IsSpace(s[i]) {
      assert s[..k][i] == s[i];
    }
  }

  /** A prefix of single-spaced text is single-spaced. */
  lemma SingleSpacedPrefix(s: string, n: nat)
    requires SingleSpaced(s) && n <= |s|
    ensures SingleSpaced(s[..n])
  {
    forall i | 0 <= i < n && IsSpace(s[..n][i]) ensures s[..n][i] == ' ' && (i + 1 < n ==> !IsSpace(s[..n][i + 1])) {
      assert s[..n][i] == s[i];
    }
  }

  /** ASCII `str.lower()`: upper-case Latin letters become lower-case, everything else stays. */
  function Lower(s: string): (r: string)
    ensures |r| == |s|
    ensures forall i :: 0 <= i < |s| ==>
              (('A' <= s[i] <= 'Z' ==> r[i] as int == s[i] as int + 32) && (!('A' <= s[i] <= 'Z') ==> r[i] == s[i]))
  {
    seq(|s|, i requires 0 <= i < |s| => if 'A' <= s[i] <= 'Z' then (s[i] as int + 32) as char else s[i])
  }

  /** Decimal digits of a natural number, as `str(n)` prints them. */
  function NatToString(n: nat): (r: string)
    ensures |r| >= 1
    ensures forall i :: 0 <= i < |r| ==> '0' <= r[i] <= '9'
    decreases n
  {
    var d := ['0' + (n % 10) as char];
    if n < 10 then d else NatToString(n / 10) + d
  }

  /** `str(n)` for an int: a minus sign then the digits of `-n` when `n` is negative. */
  function IntToString(n: int): string {
    if n < 0 then "-" + NatToString(-n) else NatToString(n)
  }

  /** Python's `int(x)` on a float: truncation toward zero. */
  function TruncateToInt(x: real): (r: int)
    ensures x >= 0.0 ==> r as real <= x < r as real + 1.0
    ensures x < 0.0 ==> r as real - 1.0 < x <= r as real
  {
    if x >= 0.0 then x.Floor else -((-x).Floor)
  }
}
