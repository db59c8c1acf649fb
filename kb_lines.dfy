/** The knowledge-base file as the loader reads it: `open(path, 'r')` in
    text mode, then `for line in f: sentences.append(line)`. Text mode turns
    every `\r\n` and every lone `\r` into `\n` (Python's universal newlines);
    iterating the file yields its lines in order, each keeping its `\n`, the
    last one without it when the file does not end in a newline. The model
    works on the file's decoded text: opening and decoding the file are not
    modelled. */
module KbLines {
  import opened Sequences

  /** Python's universal-newline translation on reading. */
  function NormalizeNewlines(raw: string): (t: string)
    ensures '\r' !in t
    ensures |t| <= |raw|
    decreases |raw|
  {
    if raw == [] then []
    else if raw[0] == '\r' then
      if |raw| > 1 && raw[1] == '\n' then "\n" + NormalizeNewlines(raw[2..])
      else "\n" + NormalizeNewlines(raw[1..])
    else [raw[0]] + NormalizeNewlines(raw[1..])
  }

  /** Length of the first line of a non-empty text: up to and including the
      first `\n`, or the whole text when it has none. */
  function LineEnd(s: string): (n: nat)
    requires s != []
    ensures 0 < n <= |s|
    ensures '\n' !in s[..n - 1]
    ensures n < |s| ==> s[n - 1] == '\n'
  {
    if s[0] == '\n' || |s| == 1 then 1
    else
      var n := 1 + LineEnd(s[1..]);
      assert s[..n - 1] == [s[0]] + s[1..][..n - 2];
      n
  }

  /** Python's `s.replace(pat, sub)`: occurrences of `pat` are found from
      left to right, without overlap, and each is replaced by `sub`. */
  function Replace(s: string, pat: string, sub: string): string
    requires pat != []
    decreases |s|
  {
    if |pat| <= |s| && s[..|pat|] == pat then sub + Replace(s[|pat|..], pat, sub)
    else if s == [] then []
    else [s[0]] + Replace(s[1..], pat, sub)
  }

  lemma ReplaceCarriageReturnCons(x: char, b: string)
    ensures Replace([x] + b, "\r", "\n") == (if x == '\r' then "\n" else [x]) + Replace(b, "\r", "\n")
  {
    var s := [x] + b;
    assert s[..1] == [x] && s[1..] == b;
  }

  /** The translation is `replace('\r\n', '\n')` followed by
      `replace('\r', '\n')`: each `\r\n` and each remaining `\r` becomes one
      `\n`, and every other character is kept, in order. */
  lemma {:induction false} NormalizeNewlinesReplaces(raw: string)
    ensures NormalizeNewlines(raw) == Replace(Replace(raw, "\r\n", "\n"), "\r", "\n")
    decreases |raw|
  {
    if raw != [] {
      if raw[0] == '\r' && |raw| > 1 && raw[1] == '\n' {
        assert raw[..2] == "\r\n";
        NormalizeNewlinesReplaces(raw[2..]);
        ReplaceCarriageReturnCons('\n', Replace(raw[2..], "\r\n", "\n"));
      } else {
        assert |raw| < 2 || raw[..2] != "\r\n" by {
          if |raw| >= 2 { assert raw[..2][1] == raw[1] && raw[..2][0] == raw[0]; }
        }
        NormalizeNewlinesReplaces(raw[1..]);
        ReplaceCarriageReturnCons(raw[0], Replace(raw[1..], "\r\n", "\n"));
      }
    }
  }

  /** Text without carriage returns in front is read as it is, and the rest
      is read on its own. */
  lemma {:induction false} NormalizePlainPrefix(a: string, b: string)
    requires '\r' !in a
    ensures NormalizeNewlines(a + b) == a + NormalizeNewlines(b)
    decreases |a|
  {
    if a != [] {
      assert (a + b)[0] == a[0] && (a + b)[1..] == a[1..] + b;
      NormalizePlainPrefix(a[1..], b);
      assert [a[0]] + (a[1..] + NormalizeNewlines(b)) == a + NormalizeNewlines(b);
    } else {
      assert a + b == b;
    }
  }

  /** A `\r\n` after text without carriage returns is read as one `\n`. */
  lemma CrLfStep(a: string, b: string)
    requires '\r' !in a
    ensures NormalizeNewlines(a + "\r\n" + b) == a + "\n" + NormalizeNewlines(b)
  {
    var rest := "\r\n" + b;
    assert a + "\r\n" + b == a + rest;
    NormalizePlainPrefix(a, rest);
    assert rest[0] == '\r' && rest[1] == '\n' && rest[2..] == b;
  }

  /** A `\r` not followed by `\n`, after text without carriage returns, is
      read as one `\n`. */
  lemma LoneCrStep(a: string, b: string)
    requires '\r' !in a
    requires b == [] || b[0] != '\n'
    ensures NormalizeNewlines(a + "\r" + b) == a + "\n" + NormalizeNewlines(b)
  {
    var rest := "\r" + b;
    assert a + "\r" + b == a + rest;
    NormalizePlainPrefix(a, rest);
    assert rest[0] == '\r' && rest[1..] == b;
  }

  /** A text without carriage returns is read as it is. */
  lemma {:induction false} NormalizePlainText(raw: string)
    requires '\r' !in raw
    ensures NormalizeNewlines(raw) == raw
    decreases |raw|
  {
    if raw != [] {
      NormalizePlainText(raw[1..]);
      assert [raw[0]] + raw[1..] == raw;
    }
  }

  /** The lines of a text, in order, each with its terminator: there is
      no line exactly when the text is empty, and never more lines than
      characters. */
  function Lines(t: string): (ls: seq<string>)
    ensures ls == [] <==> t == []
    ensures |ls| <= |t|
    decreases |t|
  {
    if t == [] then [] else [t[..LineEnd(t)]] + Lines(t[LineEnd(t)..])
  }

  /** One line as iteration yields it: not empty, a `\n` only at its end. */
  predicate IsLine(l: string) {
    l != [] && '\n' !in l[..|l| - 1]
  }

  lemma {:induction false} CountNewlinesOfLine(l: string)
    requires IsLine(l)
    ensures Count(l, '\n') == if l[|l| - 1] == '\n' then 1 else 0
  {
    var body := l[..|l| - 1];
    CountAppend(body, [l[|l| - 1]], '\n');
    assert body + [l[|l| - 1]] == l;
    CountAbsent(body, '\n');
  }

  /** The first line of a non-empty text, and the lines of what follows. */
  lemma LinesUnfold(t: string)
    requires t != []
    ensures IsLine(t[..LineEnd(t)])
    ensures |t[..LineEnd(t)]| == LineEnd(t)
    ensures Lines(t) == [t[..LineEnd(t)]] + Lines(t[LineEnd(t)..])
    ensures t[..LineEnd(t)] + t[LineEnd(t)..] == t
  {
    var n := LineEnd(t);
    var line := t[..n];
    assert line[..n - 1] == t[..n - 1];
    assert line + t[n..] == t;
  }

  /** Joining the lines gives the text back, so nothing is lost, added or
      reordered. */
  lemma {:induction false} LinesConcat(t: string)
    ensures Join(Lines(t), "") == t
    decreases |t|
  {
    if t != [] {
      LinesUnfold(t);
      var n := LineEnd(t);
      var line, rest := t[..n], t[n..];
      LinesConcat(rest);
      JoinCons(line, Lines(rest), "");
      if rest != [] {
        assert line + "" + rest == t;
      }
    }
  }

  /** Each line is a proper line, and every line but the last ends in
      `\n`. */
  lemma {:induction false} LinesShape(t: string)
    ensures forall i :: 0 <= i < |Lines(t)| ==> IsLine(Lines(t)[i])
    ensures forall i :: 0 <= i < |Lines(t)| - 1 ==> Lines(t)[i] != [] && Lines(t)[i][|Lines(t)[i]| - 1] == '\n'
    decreases |t|
  {
    if t != [] {
      LinesUnfold(t);
      var n := LineEnd(t);
      var rest := t[n..];
      LinesShape(rest);
      var ls := Lines(t);
      assert forall i :: 1 <= i < |ls| ==> ls[i] == Lines(rest)[i - 1];
      if n == |t| {
        assert rest == [];
        assert |ls| == 1;
      } else {
        assert ls[0][n - 1] == '\n';
      }
    }
  }

  /** There is one line per `\n`, plus one for a last line without it. */
  lemma {:induction false} LinesCount(t: string)
    ensures |Lines(t)| == Count(t, '\n') + (if t != [] && t[|t| - 1] != '\n' then 1 else 0)
    decreases |t|
  {
    if t != [] {
      LinesUnfold(t);
      var n := LineEnd(t);
      var line, rest := t[..n], t[n..];
      var tail := if rest != [] && rest[|rest| - 1] != '\n' then 1 else 0;
      var last := if t[|t| - 1] != '\n' then 1 else 0;
      assert |Lines(rest)| == Count(rest, '\n') + tail by {
        LinesCount(rest);
      }
      assert |Lines(t)| == 1 + |Lines(rest)|;
      assert Count(t, '\n') == Count(line, '\n') + Count(rest, '\n') by {
        CountAppend(line, rest, '\n');
      }
      CountNewlinesOfLine(line);
      if n < |t| {
        assert Count(line, '\n') == 1 by {
          assert line[n - 1] == '\n';
        }
        assert tail == last by {
          assert rest != [] && rest[|rest| - 1] == t[|t| - 1];
        }
      } else {
        assert rest == [] && line == t;
        assert Count(rest, '\n') == 0 && tail == 0;
        assert Count(line, '\n') + last == 1;
      }
    }
  }

  /** A file whose lines are each followed by the terminator `eol`. */
  function Terminated(ls: seq<string>, eol: string): string {
    if ls == [] then [] else ls[0] + eol + Terminated(ls[1..], eol)
  }

  /** Lines free of line-break characters, as a file's lines are before
      their terminators. */
  predicate PlainLines(ls: seq<string>) {
    forall i :: 0 <= i < |ls| ==> '\r' !in ls[i] && '\n' !in ls[i]
  }

  /** Text mode reads a file with Windows line endings as the same file
      with `\n` line endings. */
  lemma {:induction false} NormalizeCrLfFile(ls: seq<string>)
    requires PlainLines(ls)
    ensures NormalizeNewlines(Terminated(ls, "\r\n")) == Terminated(ls, "\n")
    decreases |ls|
  {
    if ls != [] {
      assert '\r' !in ls[0];
      CrLfStep(ls[0], Terminated(ls[1..], "\r\n"));
      assert PlainLines(ls[1..]) by {
        forall i | 0 <= i < |ls[1..]| ensures '\r' !in ls[1..][i] && '\n' !in ls[1..][i] {
          assert ls[1..][i] == ls[i + 1];
        }
      }
      NormalizeCrLfFile(ls[1..]);
    }
  }

  lemma {:induction false} LineEndAfter(l: string, rest: string)
    requires '\n' !in l
    ensures LineEnd(l + "\n" + rest) == |l| + 1
    decreases |l|
  {
    var s := l + "\n" + rest;
    if l != [] {
      assert s[0] == l[0] && |s| > 1;
      assert s[1..] == l[1..] + "\n" + rest;
      LineEndAfter(l[1..], rest);
    } else {
      assert s[0] == '\n';
    }
  }

  /** A line without `\n`, followed by `\n`, is the first line of the text. */
  lemma LinesOfLeadingLine(l: string, rest: string)
    requires '\n' !in l
    ensures Lines(l + "\n" + rest) == [l + "\n"] + Lines(rest)
  {
    var s := l + "\n" + rest;
    LineEndAfter(l, rest);
    var n := |l| + 1;
    assert s[..n] == l + "\n" && s[n..] == rest;
  }

  /** Each line of a `\n`-terminated file becomes one entry, with its `\n`. */
  lemma {:induction false} LinesOfTerminated(ls: seq<string>)
    requires PlainLines(ls)
    ensures Lines(Terminated(ls, "\n")) == seq(|ls|, i requires 0 <= i < |ls| => ls[i] + "\n")
    decreases |ls|
  {
    if ls != [] {
      LinesOfLeadingLine(ls[0], Terminated(ls[1..], "\n"));
      assert PlainLines(ls[1..]) by {
        forall i | 0 <= i < |ls[1..]| ensures '\r' !in ls[1..][i] && '\n' !in ls[1..][i] {
          assert ls[1..][i] == ls[i + 1];
        }
      }
      LinesOfTerminated(ls[1..]);
    }
  }

  /** A knowledge-base file with `\r\n` line endings is read as one entry
      per line of the file, in order, each ending in a single `\n`. */
  lemma CrLfFileLines(ls: seq<string>)
    requires PlainLines(ls)
    ensures Lines(NormalizeNewlines(Terminated(ls, "\r\n"))) ==
              seq(|ls|, i requires 0 <= i < |ls| => ls[i] + "\n")
  {
    NormalizeCrLfFile(ls);
    LinesOfTerminated(ls);
  }
}
