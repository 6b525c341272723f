/**
 * The description clean-up of the properties spider
 * (`PropertiesSpider.format_paragraph`): `" ".join(s.split())`, then every
 * newline replaced by a space.
 */
module Paragraph {
  import opened Strings

  /**
   * The characters Python's argument-less `str.split()` treats as separators
   * (those for which `str.isspace()` holds).
   */
  predicate IsWhitespace(c: char): (b: bool)
    ensures c == ' ' || c == '\t' || c == '\n' || c == '\r' ==> b
    ensures ' ' < c <= '~' ==> !b
  {
    || ('\t' <= c <= '\r')
    || ('\U{1C}' <= c <= '\U{1F}')
    || c == ' '
    || c == '\U{85}'
    || c == '\U{A0}'
    || c == '\U{1680}'
    || ('\U{2000}' <= c <= '\U{200A}')
    || c == '\U{2028}'
    || c == '\U{2029}'
    || c == '\U{202F}'
    || c == '\U{205F}'
    || c == '\U{3000}'
  }

  /** A piece `str.split()` can return: non-empty, free of whitespace. */
  predicate IsWord(w: string)
  {
    w != [] && forall i :: 0 <= i < |w| ==> !IsWhitespace(w[i])
  }

  /** `s` with every whitespace character removed. */
  function NonWhitespace(s: string): string
  {
    if s == [] then [] else (if IsWhitespace(s[0]) then [] else [s[0]]) + NonWhitespace(s[1..])
  }

  /** The words laid end to end, with nothing between them. */
  function Concat(ws: seq<string>): string
  {
    if ws == [] then [] else ws[0] + Concat(ws[1..])
  }

  /** `gaps[0] + ws[0] + gaps[1] + ... + ws[n-1] + gaps[n]`: words laid out with the given gaps around them. */
  function Interleave(gaps: seq<string>, ws: seq<string>): string
    requires |gaps| == |ws| + 1
  {
    if ws == [] then gaps[0] else gaps[0] + ws[0] + Interleave(gaps[1..], ws[1..])
  }

  predicate AllWhitespace(s: string)
  {
    forall i :: 0 <= i < |s| ==> IsWhitespace(s[i])
  }

  /** The longest prefix of `s` that holds no whitespace. */
  function LeadingWord(s: string): (w: string)
    ensures w <= s
    ensures forall i :: 0 <= i < |w| ==> !IsWhitespace(w[i])
    ensures |w| < |s| ==> IsWhitespace(s[|w|])
  {
    if s == [] || IsWhitespace(s[0]) then [] else [s[0]] + LeadingWord(s[1..])
  }

  /** `s.split()`: the maximal runs of non-whitespace characters, left to right. */
  function Words(s: string): (ws: seq<string>)
    ensures forall i :: 0 <= i < |ws| ==> IsWord(ws[i])
    decreases |s|
  {
    if s == [] then []
    else if IsWhitespace(s[0]) then Words(s[1..])
    else
      var w := LeadingWord(s);
      [w] + Words(s[|w|..])
  }

  /** `s.replace(old, new)` for a one-character `old` and `new`. */
  function ReplaceChar(s: string, target: char, replacement: char): (r: string)
    ensures |r| == |s|
    ensures forall i :: 0 <= i < |s| ==> r[i] == if s[i] == target then replacement else s[i]
  {
    if s == [] then [] else [if s[0] == target then replacement else s[0]] + ReplaceChar(s[1..], target, replacement)
  }

  /**
   * Every whitespace character of `s` is a single space standing between two
   * non-whitespace characters: no newline, no tab, no run of spaces, nothing
   * at either end.
   */
  predicate SingleSpaced(s: string)
  {
    forall i :: 0 <= i < |s| && IsWhitespace(s[i]) ==>
      s[i] == ' ' && 0 < i < |s| - 1 && !IsWhitespace(s[i - 1]) && !IsWhitespace(s[i + 1])
  }

  /** `format_paragraph(job_description)`. */
  function FormatParagraph(description: string): (r: string)
    ensures '\n' !in r
    ensures forall i :: 0 <= i < |r| && IsWhitespace(r[i]) ==> r[i] == ' '
    ensures forall i :: 0 <= i < |r| - 1 ==> !(r[i] == ' ' && r[i + 1] == ' ')
    ensures r != [] ==> !IsWhitespace(r[0]) && !IsWhitespace(r[|r| - 1])
    ensures |r| <= |description|
  {
    var collapsed := Join(" ", Words(description));
    JoinWordsSingleSpaced(Words(description));
    JoinWordsShorter(description);
    NoNewlineInSingleSpaced(collapsed);
    ReplaceAbsent(collapsed, '\n', ' ');
    ReplaceChar(collapsed, '\n', ' ')
  }

  // ---------------------------------------------------------------- lemmas

  lemma {:induction false} LeadingWordOfWord(w: string, rest: string)
    requires forall i :: 0 <= i < |w| ==> !IsWhitespace(w[i])
    requires rest == [] || IsWhitespace(rest[0])
    ensures LeadingWord(w + rest) == w
  {
    if w != [] {
      assert (w + rest)[1..] == w[1..] + rest;
      LeadingWordOfWord(w[1..], rest);
    } else {
      assert w + rest == rest;
    }
  }

  /** Leading whitespace does not change the split. */
  lemma {:induction false} WordsSkipWhitespace(g: string, s: string)
    requires AllWhitespace(g)
    ensures Words(g + s) == Words(s)
    decreases |g|
  {
    if g != [] {
      assert (g + s)[1..] == g[1..] + s;
      assert IsWhitespace((g + s)[0]);
      WordsSkipWhitespace(g[1..], s);
    } else {
      assert g + s == s;
    }
  }

  /**
   * `str.split()` splits exactly at whitespace and only there: words separated
   * by non-empty runs of whitespace, with any whitespace at either end, split
   * into exactly those words.
   */
  lemma {:induction false} WordsOfInterleave(gaps: seq<string>, ws: seq<string>)
    requires |gaps| == |ws| + 1
    requires forall i :: 0 <= i < |ws| ==> IsWord(ws[i])
    requires forall i :: 0 <= i < |gaps| ==> AllWhitespace(gaps[i])
    requires forall i :: 0 < i < |ws| ==> gaps[i] != []
    ensures Words(Interleave(gaps, ws)) == ws
  {
    if ws == [] {
      WordsSkipWhitespace(gaps[0], []);
      assert gaps[0] + [] == gaps[0];
    } else {
      var w, rest := ws[0], Interleave(gaps[1..], ws[1..]);
      assert Interleave(gaps, ws) == gaps[0] + (w + rest);
      WordsSkipWhitespace(gaps[0], w + rest);
      if |ws| > 1 {
        assert rest == gaps[1] + (ws[1] + Interleave(gaps[2..], ws[2..]));
        assert rest[0] == gaps[1][0];
      } else {
        assert rest == gaps[1];
      }
      LeadingWordOfWord(w, rest);
      assert (w + rest)[|w|..] == rest;
      WordsOfInterleave(gaps[1..], ws[1..]);
      assert [w] + ws[1..] == ws;
    }
  }

  /** Splitting a space-joined list of words gives those words back. */
  lemma {:induction false} WordsOfJoin(ws: seq<string>)
    requires forall i :: 0 <= i < |ws| ==> IsWord(ws[i])
    ensures Words(Join(" ", ws)) == ws
  {
    if ws == [] {
    } else if |ws| == 1 {
      LeadingWordOfWord(ws[0], []);
      assert ws[0] + [] == ws[0];
      assert ws[0][|ws[0]|..] == [];
    } else {
      var w, tail := ws[0], Join(" ", ws[1..]);
      var s := w + " " + tail;
      assert Join(" ", ws) == s;
      assert s == w + (" " + tail);
      LeadingWordOfWord(w, " " + tail);
      assert s[|w|..] == " " + tail;
      assert (" " + tail)[1..] == tail;
      WordsOfJoin(ws[1..]);
      assert [ws[0]] + ws[1..] == ws;
    }
  }

  /** A space-joined list of words is single-spaced and starts and ends with a word character. */
  lemma {:induction false} JoinWordsSingleSpaced(ws: seq<string>)
    requires forall i :: 0 <= i < |ws| ==> IsWord(ws[i])
    ensures SingleSpaced(Join(" ", ws))
    ensures ws != [] ==> Join(" ", ws) != []
    ensures ws != [] ==> !IsWhitespace(Join(" ", ws)[0])
    ensures ws != [] ==> !IsWhitespace(Join(" ", ws)[|Join(" ", ws)| - 1])
  {
    if |ws| <= 1 {
    } else {
      var w, tail := ws[0], Join(" ", ws[1..]);
      JoinWordsSingleSpaced(ws[1..]);
      var s := w + " " + tail;
      assert Join(" ", ws) == s;
      assert forall k :: 0 <= k < |w| ==> s[k] == w[k];
      forall i | 0 <= i < |s| && IsWhitespace(s[i])
        ensures s[i] == ' ' && 0 < i < |s| - 1 && !IsWhitespace(s[i - 1]) && !IsWhitespace(s[i + 1])
      {
        if i == |w| {
          assert s[i - 1] == w[|w| - 1];
          assert s[i + 1] == tail[0];
        } else if i > |w| {
          assert s[i] == tail[i - |w| - 1];
          assert s[i - 1] == (if i - 1 == |w| then ' ' else tail[i - |w| - 2]);
          assert s[i + 1] == tail[i - |w|];
        }
      }
      assert s[0] == w[0];
      assert s[|s| - 1] == tail[|tail| - 1];
    }
  }

  lemma NoNewlineInSingleSpaced(s: string)
    requires SingleSpaced(s)
    ensures '\n' !in s
  {
  }

  /** Replacing a character that does not occur changes nothing. */
  lemma ReplaceAbsent(s: string, target: char, replacement: char)
    requires target !in s
    ensures ReplaceChar(s, target, replacement) == s
  {
  }

  /** `" ".join(s.split())` is never longer than `s`. */
  lemma {:induction false} JoinWordsShorter(s: string)
    ensures |Join(" ", Words(s))| <= |s|
    decreases |s|
  {
    if s == [] {
    } else if IsWhitespace(s[0]) {
      JoinWordsShorter(s[1..]);
    } else {
      var w := LeadingWord(s);
      var rest := s[|w|..];
      assert Words(s) == [w] + Words(rest);
      JoinCons(" ", w, Words(rest));
      if rest != [] {
        assert IsWhitespace(rest[0]);
        assert Words(rest) == Words(rest[1..]);
        JoinWordsShorter(rest[1..]);
      }
    }
  }

  lemma {:induction false} NonWhitespaceAppend(a: string, b: string)
    ensures NonWhitespace(a + b) == NonWhitespace(a) + NonWhitespace(b)
  {
    if a != [] {
      assert (a + b)[1..] == a[1..] + b;
      NonWhitespaceAppend(a[1..], b);
    } else {
      assert a + b == b;
    }
  }

  lemma {:induction false} NonWhitespaceOfWord(w: string)
    requires forall i :: 0 <= i < |w| ==> !IsWhitespace(w[i])
    ensures NonWhitespace(w) == w
  {
    if w != [] {
      NonWhitespaceOfWord(w[1..]);
      assert [w[0]] + w[1..] == w;
    }
  }

  /** The words of `s`, laid end to end, are exactly the non-whitespace characters of `s`, in order. */
  lemma {:induction false} WordsContent(s: string)
    ensures Concat(Words(s)) == NonWhitespace(s)
    decreases |s|
  {
    if s == [] {
    } else if IsWhitespace(s[0]) {
      WordsContent(s[1..]);
    } else {
      var w := LeadingWord(s);
      var rest := s[|w|..];
      assert s == w + rest;
      assert Words(s) == [w] + Words(rest);
      assert ([w] + Words(rest))[1..] == Words(rest);
      WordsContent(rest);
      NonWhitespaceAppend(w, rest);
      NonWhitespaceOfWord(w);
    }
  }

  /** `s.split()` is empty exactly when `s` is empty or all whitespace. */
  lemma {:induction false} WordsEmpty(s: string)
    ensures Words(s) == [] <==> AllWhitespace(s)
    decreases |s|
  {
    if s == [] {
    } else if IsWhitespace(s[0]) {
      WordsEmpty(s[1..]);
      assert AllWhitespace(s) <==> AllWhitespace(s[1..]) by {
        if AllWhitespace(s[1..]) {
          forall i | 0 <= i < |s| ensures IsWhitespace(s[i]) {
            if i > 0 { assert s[i] == s[1..][i - 1]; }
          }
        }
      }
    } else {
      assert !AllWhitespace(s);
    }
  }

  // ------------------------------------------------------ format_paragraph

  /** The words of the description survive, in their order. */
  lemma FormatParagraphKeepsWords(description: string)
    ensures Words(FormatParagraph(description)) == Words(description)
  {
    var ws := Words(description);
    JoinWordsSingleSpaced(ws);
    NoNewlineInSingleSpaced(Join(" ", ws));
    ReplaceAbsent(Join(" ", ws), '\n', ' ');
    WordsOfJoin(ws);
  }

  /** Formatting a formatted description changes nothing. */
  lemma FormatParagraphIdempotent(description: string)
    ensures FormatParagraph(FormatParagraph(description)) == FormatParagraph(description)
  {
    var r := FormatParagraph(description);
    FormatParagraphKeepsWords(description);
    assert Words(r) == Words(description);
  }

  /** The result is empty exactly when the description is empty or all whitespace. */
  lemma FormatParagraphBlank(description: string)
    ensures FormatParagraph(description) == [] <==> AllWhitespace(description)
  {
    var ws := Words(description);
    WordsEmpty(description);
    JoinWordsSingleSpaced(ws);
    NoNewlineInSingleSpaced(Join(" ", ws));
    ReplaceAbsent(Join(" ", ws), '\n', ' ');
  }
}
