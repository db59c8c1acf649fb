/** Decoding of a sample's `evidence_targets` cell, `"[i1, i2, ...]"` or
    `"[]"`, into the list of knowledge-base indices it names, the way the
    loader's list comprehension does it: the exact text `"[]"` is the empty
    list; any other text loses every `[` and `]`, is split on `,`, and each
    piece goes through Python's `int()`, in order. A piece `int()` refuses
    (`"[1,]"`, `"[ ]"`, `""`) is a decoding error. */
module TargetDecoding {
  import opened Wrappers
  import opened Sequences

  datatype DecodeError = InvalidLiteral(piece: string)

  /** The ASCII characters Python's `int()` skips around a literal: space,
      tab, line feed, vertical tab, form feed and carriage return. The
      separators 0x1C-0x1F, which `str.strip()` would remove, are not among
      them. */
  predicate IsSpace(c: char) {
    c == ' ' || ('\t' <= c <= '\r')
  }

  predicate IsDigit(c: char) {
    '0' <= c <= '9'
  }

  predicate AllSpace(w: string) {
    forall i :: 0 <= i < |w| ==> IsSpace(w[i])
  }

  predicate AllDigits(d: string) {
    forall i :: 0 <= i < |d| ==> IsDigit(d[i])
  }

  // ---------------------------------------------------------------------
  // String operations used by the comprehension
  // ---------------------------------------------------------------------

  /** `t.replace('[', '').replace(']', '')`. */
  function RemoveBrackets(s: string): (r: string)
    ensures '[' !in r && ']' !in r
    ensures |r| <= |s|
    ensures '[' !in s && ']' !in s ==> r == s
  {
    if s == [] then []
    else (if s[0] == '[' || s[0] == ']' then [] else [s[0]]) + RemoveBrackets(s[1..])
  }

  /** Python's `s.split(sep)` for a one-character separator: one piece more
      than there are separators, none of them holding the separator, and
      joining them back with the separator gives `s` again. */
  function Split(s: string, sep: char): (pieces: seq<string>)
    ensures |pieces| == Count(s, sep) + 1
    ensures forall p :: p in pieces ==> sep !in p
    ensures Join(pieces, [sep]) == s
    decreases |s|
  {
    if s == [] then [""]
    else
      var rest := Split(s[1..], sep);
      if s[0] == sep then
        assert Join([""] + rest, [sep]) == [sep] + Join(rest, [sep]) by {
          assert ([""] + rest)[1..] == rest;
        }
        assert s == [sep] + s[1..];
        [""] + rest
      else
        var pieces := [[s[0]] + rest[0]] + rest[1..];
        assert pieces[1..] == rest[1..];
        assert Join(pieces, [sep]) == [s[0]] + Join(rest, [sep]);
        assert s == [s[0]] + s[1..];
        pieces
  }

  /** `s.lstrip()` restricted to the characters of IsSpace. */
  function TrimLeft(s: string): (r: string)
    ensures |r| <= |s| && r == s[|s| - |r|..]
    ensures r == [] || !IsSpace(r[0])
    ensures AllSpace(s[..|s| - |r|])
  {
    if s != [] && IsSpace(s[0]) then
      var r := TrimLeft(s[1..]);
      assert s[..|s| - |r|] == [s[0]] + s[1..][..|s| - 1 - |r|];
      r
    else s
  }

  /** `s.rstrip()` restricted to the characters of IsSpace. */
  function TrimRight(s: string): (r: string)
    ensures |r| <= |s| && r == s[..|r|]
    ensures r == [] || !IsSpace(r[|r| - 1])
    ensures AllSpace(s[|r|..])
  {
    if s != [] && IsSpace(s[|s| - 1]) then
      var r := TrimRight(s[..|s| - 1]);
      assert s[|r|..] == s[..|s| - 1][|r|..] + [s[|s| - 1]];
      r
    else s
  }

  // ---------------------------------------------------------------------
  // Python's int() on one piece
  // ---------------------------------------------------------------------

  /** Decimal digits, optionally grouped by single underscores between two
      digits, as `int()` accepts them after the sign. */
  predicate IsDigitGroups(b: string) {
    && |b| > 0
    && IsDigit(b[0])
    && IsDigit(b[|b| - 1])
    && (forall i :: 0 <= i < |b| ==> IsDigit(b[i]) || b[i] == '_')
    && NoDoubleUnderscore(b)
  }

  predicate NoDoubleUnderscore(b: string) {
    |b| < 2 || (!(b[0] == '_' && b[1] == '_') && NoDoubleUnderscore(b[1..]))
  }

  function DropUnderscores(b: string): (r: string)
    ensures '_' !in r
    ensures (forall i :: 0 <= i < |b| ==> IsDigit(b[i]) || b[i] == '_') ==> AllDigits(r)
    ensures '_' !in b ==> r == b
  {
    if b == [] then []
    else (if b[0] == '_' then [] else [b[0]]) + DropUnderscores(b[1..])
  }

  /** Value of a string of decimal digits, most significant first. */
  function DigitsValue(d: string): nat
    requires AllDigits(d)
  {
    if d == [] then 0
    else 10 * DigitsValue(d[..|d| - 1]) + (d[|d| - 1] as int - '0' as int)
  }

  /** Python's `int(piece)`: surrounding white space is ignored, then an
      optional sign and digit groups; anything else raises, modelled as an
      error naming the piece. */
  function ParseInt(piece: string): (r: Result<int, DecodeError>)
    ensures r.Err? ==> r.error == InvalidLiteral(piece)
  {
    match LiteralValue(Strip(piece))
    case Some(v) => Ok(v)
    case None => Err(InvalidLiteral(piece))
  }

  function Strip(s: string): string {
    TrimRight(TrimLeft(s))
  }

  /** The value of an already stripped integer literal, if it is one: a
      literal starts with a sign or a digit and ends with a digit, and only
      a `-` makes it negative. */
  function LiteralValue(t: string): (r: Option<int>)
    ensures r.Some? ==> t != [] && IsDigit(t[|t| - 1])
    ensures r.Some? ==> IsDigit(t[0]) || t[0] == '+' || t[0] == '-'
    ensures r.Some? && r.value < 0 ==> t[0] == '-'
  {
    var signed := |t| > 0 && (t[0] == '+' || t[0] == '-');
    var body := if signed then t[1..] else t;
    if IsDigitGroups(body) then
      var magnitude: int := DigitsValue(DropUnderscores(body));
      Some(if signed && t[0] == '-' then -magnitude else magnitude)
    else
      None
  }

  /** Gathers per-item results the way a comprehension raising on its first
      bad item does: all values in order, or the first error. */
  function Collect<T(==), E(==)>(rs: seq<Result<T, E>>): (r: Result<seq<T>, E>)
    ensures r.Ok? <==> forall i :: 0 <= i < |rs| ==> rs[i].Ok?
    ensures r.Ok? ==> |r.value| == |rs| && forall i :: 0 <= i < |rs| ==> rs[i] == Ok(r.value[i])
    ensures r.Err? ==> exists i :: 0 <= i < |rs| && rs[i] == Err(r.error)
                                  && forall j :: 0 <= j < i ==> rs[j].Ok?
  {
    if rs == [] then Ok([])
    else if rs[0].Err? then Err(rs[0].error)
    else
      var tail := Collect(rs[1..]);
      if tail.Err? then
        var i :| 0 <= i < |rs| - 1 && rs[1..][i] == Err(tail.error)
                 && forall j :: 0 <= j < i ==> rs[1..][j].Ok?;
        assert rs[i + 1] == Err(tail.error);
        Err(tail.error)
      else
        Ok([rs[0].value] + tail.value)
  }

  /** `[int(item) for item in pieces]`: one value per piece, or an error
      naming a piece `int()` refuses. ParseEachSpec states which values and
      which piece. */
  function ParseEach(pieces: seq<string>): (r: Result<seq<int>, DecodeError>)
    ensures r.Ok? ==> |r.value| == |pieces|
    ensures r.Err? ==> exists i :: 0 <= i < |pieces| && r.error == InvalidLiteral(pieces[i])
  {
    Collect(PieceResults(pieces))
  }

  /** The comprehension succeeds exactly when `int()` accepts every piece,
      and then holds their values in order; otherwise it reports the first
      piece refused. */
  lemma ParseEachSpec(pieces: seq<string>)
    ensures ParseEach(pieces).Ok? <==> forall i :: 0 <= i < |pieces| ==> ParseInt(pieces[i]).Ok?
    ensures ParseEach(pieces).Ok? ==>
              forall i :: 0 <= i < |pieces| ==> ParseInt(pieces[i]) == Ok(ParseEach(pieces).value[i])
    ensures ParseEach(pieces).Err? ==>
              exists i :: 0 <= i < |pieces| && ParseEach(pieces).error == InvalidLiteral(pieces[i])
                          && forall j :: 0 <= j < i ==> ParseInt(pieces[j]).Ok?
  {
    var r := ParseEach(pieces);
    if r.Ok? {
      ParseEachValues(pieces);
    } else {
      var i := ParseEachFirstError(pieces);
      assert !ParseInt(pieces[i]).Ok?;
    }
  }

  lemma ParseEachValues(pieces: seq<string>)
    requires ParseEach(pieces).Ok?
    ensures forall i :: 0 <= i < |pieces| ==> ParseInt(pieces[i]) == Ok(ParseEach(pieces).value[i])
  {
    var rs := PieceResults(pieces);
    assert ParseEach(pieces) == Collect(rs);
  }

  lemma ParseEachFirstError(pieces: seq<string>) returns (i: nat)
    ensures ParseEach(pieces).Err? ==>
              && i < |pieces| && ParseEach(pieces).error == InvalidLiteral(pieces[i])
              && ParseInt(pieces[i]).Err?
              && forall j :: 0 <= j < i ==> ParseInt(pieces[j]).Ok?
  {
    var rs := PieceResults(pieces);
    assert ParseEach(pieces) == Collect(rs);
    if Collect(rs).Err? {
      i := CollectFirstError(rs);
      assert rs[i] == ParseInt(pieces[i]);
    } else {
      i := 0;
    }
  }

  /** The error `Collect` reports is the first one. */
  lemma CollectFirstError<T, E>(rs: seq<Result<T, E>>) returns (i: nat)
    requires Collect(rs).Err?
    ensures i < |rs| && rs[i] == Err(Collect(rs).error)
    ensures forall j :: 0 <= j < i ==> rs[j].Ok?
  {
    i :| 0 <= i < |rs| && rs[i] == Err(Collect(rs).error) && forall j :: 0 <= j < i ==> rs[j].Ok?;
  }

  /** `int()` of each piece, piece by piece. */
  function PieceResults(pieces: seq<string>): (rs: seq<Result<int, DecodeError>>)
    ensures |rs| == |pieces|
    ensures forall i :: 0 <= i < |pieces| ==> rs[i] == ParseInt(pieces[i])
  {
    seq(|pieces|, i requires 0 <= i < |pieces| => ParseInt(pieces[i]))
  }

  /** The loader's decoding of one `evidence_targets` cell: `"[]"` is the
      empty list, and no other cell decodes to it. */
  function DecodeTargets(t: string): (r: Result<seq<int>, DecodeError>)
    ensures t == "[]" ==> r == Ok([])
    ensures t != "[]" && r.Ok? ==> r.value != []
  {
    if t == "[]" then Ok([])
    else ParseEach(Split(RemoveBrackets(t), ','))
  }

  /** Only `"[]"` decodes to the empty list; any other cell that decodes
      names one index more than its bracket-free text has commas. */
  lemma DecodeLength(t: string)
    ensures DecodeTargets(t) == Ok([]) <==> t == "[]"
    ensures t != "[]" && DecodeTargets(t).Ok? ==>
              |DecodeTargets(t).value| == Count(RemoveBrackets(t), ',') + 1
  {
    if t != "[]" {
      var pieces := Split(RemoveBrackets(t), ',');
      assert |pieces| == Count(RemoveBrackets(t), ',') + 1;
      assert DecodeTargets(t) == ParseEach(pieces);
    }
  }

  /** Python's `int()` accepts a literal with white space on both sides, an
      optional sign and digit groups, and gives its signed value. */
  lemma ParseIntLiteral(w1: string, sign: string, d: string, w2: string)
    requires AllSpace(w1) && AllSpace(w2)
    requires sign == "" || sign == "+" || sign == "-"
    requires IsDigitGroups(d)
    ensures AllDigits(DropUnderscores(d))
    ensures ParseInt(w1 + sign + d + w2) ==
              Ok((if sign == "-" then -1 else 1) * DigitsValue(DropUnderscores(d)))
  {
    var lit := sign + d;
    assert w1 + sign + d + w2 == w1 + lit + w2;
    assert lit[|lit| - 1] == d[|d| - 1];
    StripLiteral(w1, lit, w2);
    SignedLiteral(sign, d);
  }

  /** Conversely, every piece `int()` accepts is of that form: white space,
      an optional sign, digit groups and white space, and its value is the
      signed value of the digits. Anything else (`"1.5"`, `"a"`, `"1 2"`,
      `"1__0"`, `"+-1"`) is refused. */
  lemma ParseIntOnlyLiterals(p: string) returns (w1: string, sign: string, d: string, w2: string)
    requires ParseInt(p).Ok?
    ensures p == w1 + sign + d + w2 && AllSpace(w1) && AllSpace(w2)
    ensures sign == "" || sign == "+" || sign == "-"
    ensures IsDigitGroups(d) && AllDigits(DropUnderscores(d))
    ensures ParseInt(p).value == (if sign == "-" then -1 else 1) * DigitsValue(DropUnderscores(d))
  {
    var lit;
    w1, lit, w2 := StripParts(p);
    sign, d := LiteralParts(lit);
    ConcatFour(p, w1, lit, sign, d, w2);
  }

  /** A piece whose first character is neither white space nor a sign nor
      a digit is refused: `"a1"`, `".5"`, and `"\x1c1"`, since `int()` does
      not skip the separators 0x1C-0x1F. */
  lemma LeadingNonLiteralRefused(c: char, rest: string)
    requires !IsSpace(c) && !IsDigit(c) && c != '+' && c != '-'
    ensures ParseInt([c] + rest) == Err(InvalidLiteral([c] + rest))
  {
    var p := [c] + rest;
    assert p[0] == c;
    var lit := Strip(p);
    assert lit == [] || lit[0] == c;
  }

  /** The white space Strip removes on either side of what it keeps. */
  lemma StripParts(p: string) returns (w1: string, lit: string, w2: string)
    ensures lit == Strip(p) && AllSpace(w1) && AllSpace(w2)
    ensures p == w1 + (lit + w2)
  {
    var left;
    w1, left := TrimLeftParts(p);
    lit, w2 := TrimRightParts(left);
  }

  lemma TrimLeftParts(s: string) returns (w: string, r: string)
    ensures r == TrimLeft(s) && AllSpace(w) && s == w + r
  {
    r := TrimLeft(s);
    w := s[..|s| - |r|];
    assert s == s[..|s| - |r|] + s[|s| - |r|..];
  }

  lemma TrimRightParts(s: string) returns (r: string, w: string)
    ensures r == TrimRight(s) && AllSpace(w) && s == r + w
  {
    r := TrimRight(s);
    w := s[|r|..];
    assert s == s[..|r|] + s[|r|..];
  }

  /** How LiteralValue splits an accepted literal into sign and digits. */
  lemma LiteralParts(lit: string) returns (sign: string, d: string)
    requires LiteralValue(lit).Some?
    ensures lit == sign + d
    ensures sign == "" || sign == "+" || sign == "-"
    ensures IsDigitGroups(d) && AllDigits(DropUnderscores(d))
    ensures LiteralValue(lit).value == (if sign == "-" then -1 else 1) * DigitsValue(DropUnderscores(d))
  {
    if |lit| > 0 && (lit[0] == '+' || lit[0] == '-') {
      sign, d := lit[..1], lit[1..];
      assert sign == [lit[0]];
    } else {
      sign, d := "", lit;
    }
  }

  lemma ConcatFour(p: string, w1: string, lit: string, sign: string, d: string, w2: string)
    requires p == w1 + (lit + w2) && lit == sign + d
    ensures p == w1 + sign + d + w2
  {
    AppendAssociates(w1, sign + d, w2);
    AppendAssociates(w1, sign, d);
  }

  lemma StripLiteral(w1: string, lit: string, w2: string)
    requires AllSpace(w1) && AllSpace(w2)
    requires lit != [] && !IsSpace(lit[0]) && !IsSpace(lit[|lit| - 1])
    ensures Strip(w1 + lit + w2) == lit
  {
    assert w1 + lit + w2 == w1 + (lit + w2);
    assert (lit + w2)[0] == lit[0];
    TrimLeftPadded(w1, lit + w2);
    TrimRightPadded(lit, w2);
  }

  lemma SignedLiteral(sign: string, d: string)
    requires sign == "" || sign == "+" || sign == "-"
    requires IsDigitGroups(d)
    ensures AllDigits(DropUnderscores(d))
    ensures LiteralValue(sign + d) == Some((if sign == "-" then -1 else 1) * DigitsValue(DropUnderscores(d)))
  {
    if sign == "" {
      assert sign + d == d;
      UnsignedLiteral(d);
    } else {
      SignPrefixedLiteral(sign[0], d);
      assert sign + d == [sign[0]] + d;
    }
  }

  lemma UnsignedLiteral(d: string)
    requires IsDigitGroups(d)
    ensures LiteralValue(d) == Some(DigitsValue(DropUnderscores(d)))
  {
    assert IsDigit(d[0]);
  }

  lemma SignPrefixedLiteral(c: char, d: string)
    requires c == '+' || c == '-'
    requires IsDigitGroups(d)
    ensures LiteralValue([c] + d) == Some((if c == '-' then -1 else 1) * DigitsValue(DropUnderscores(d)))
  {
    var lit := [c] + d;
    assert lit[0] == c && lit[1..] == d;
  }

  lemma {:induction false} TrimRightPadded(d: string, w: string)
    requires AllSpace(w)
    requires d != [] && !IsSpace(d[|d| - 1])
    ensures TrimRight(d + w) == d
    decreases |w|
  {
    var s := d + w;
    if w != [] {
      var init := w[..|w| - 1];
      assert s[|s| - 1] == w[|w| - 1] && IsSpace(s[|s| - 1]);
      assert s[..|s| - 1] == d + init;
      assert AllSpace(init) by {
        forall i | 0 <= i < |init| ensures IsSpace(init[i]) {
          assert init[i] == w[i];
        }
      }
      TrimRightPadded(d, init);
      assert TrimRight(s) == TrimRight(s[..|s| - 1]);
    } else {
      assert s == d && s[|s| - 1] == d[|d| - 1];
    }
  }

  lemma {:induction false} TrimLeftBlank(w: string)
    requires AllSpace(w)
    ensures TrimLeft(w) == []
    decreases |w|
  {
    if w != [] {
      assert IsSpace(w[0]);
      assert AllSpace(w[1..]) by {
        forall i | 0 <= i < |w[1..]| ensures IsSpace(w[1..][i]) {
          assert w[1..][i] == w[i + 1];
        }
      }
      TrimLeftBlank(w[1..]);
    }
  }

  /** A piece of white space alone, the empty piece included, is refused by
      `int()`. */
  lemma BlankPieceRefused(w: string)
    requires AllSpace(w)
    ensures ParseInt(w) == Err(InvalidLiteral(w))
  {
    TrimLeftBlank(w);
    assert Strip(w) == [];
  }

  /** A cell other than `"[]"` with an empty or blank piece between its
      commas does not decode: the error names that piece or an earlier
      one. */
  lemma DecodeRefusesBlankPiece(t: string, i: nat)
    requires t != "[]"
    requires i < |Split(RemoveBrackets(t), ',')| && AllSpace(Split(RemoveBrackets(t), ',')[i])
    ensures DecodeTargets(t).Err?
    ensures exists j :: 0 <= j <= i &&
              DecodeTargets(t).error == InvalidLiteral(Split(RemoveBrackets(t), ',')[j])
  {
    var pieces := Split(RemoveBrackets(t), ',');
    BlankPieceRefused(pieces[i]);
    ParseEachSpec(pieces);
    var r := ParseEach(pieces);
    assert r.Err?;
    var j :| 0 <= j < |pieces| && r.error == InvalidLiteral(pieces[j])
             && forall k :: 0 <= k < j ==> ParseInt(pieces[k]).Ok?;
    assert j <= i;
  }

  /** A trailing comma is a decoding error, as in `"[1,]"`. */
  lemma TrailingCommaRefused(a: string)
    requires '[' !in a && ']' !in a && ',' !in a
    ensures DecodeTargets("[" + a + ",]").Err?
  {
    var body := a + ",";
    assert "[" + a + ",]" == "[" + body + "]";
    DecodeBracketed(body);
    assert body == a + [','] + "";
    SplitAtFirstSeparator(a, "", ',');
    BlankPieceRefused("");
    assert Split(body, ',')[1] == "";
    ParseEachSpec(Split(body, ','));
  }

  /** White space alone between the brackets is a decoding error, as in
      `"[ ]"`, unlike `"[]"`. */
  lemma BlankCellRefused(w: string)
    requires w != [] && AllSpace(w)
    ensures DecodeTargets("[" + w + "]").Err?
  {
    assert '[' !in w && ']' !in w && ',' !in w by {
      forall i | 0 <= i < |w| ensures w[i] != '[' && w[i] != ']' && w[i] != ',' {
        assert IsSpace(w[i]);
      }
    }
    DecodeBracketed(w);
    SplitWithoutSeparator(w, ',');
    BlankPieceRefused(w);
    ParseEachSpec([w]);
  }

  /** Two commas in a row are a decoding error, as in `"[1,,2]"`. */
  lemma DoubleCommaRefused(a: string, b: string)
    requires '[' !in a && ']' !in a && ',' !in a
    requires '[' !in b && ']' !in b
    ensures DecodeTargets("[" + a + ",," + b + "]").Err?
  {
    var rest := [','] + b;
    var body := a + [','] + rest;
    assert "[" + a + ",," + b + "]" == "[" + body + "]";
    DecodeBracketed(body);
    SplitAtFirstSeparator(a, rest, ',');
    assert rest == [] + [','] + b;
    SplitAtFirstSeparator([], b, ',');
    BlankPieceRefused("");
    assert Split(body, ',')[1] == "";
    ParseEachSpec(Split(body, ','));
  }

  // ---------------------------------------------------------------------
  // The writer's side: "[" + ", ".join(map(str, xs)) + "]"
  // ---------------------------------------------------------------------

  /** Python's `str(n)` for a natural number: its decimal digits, with no
      leading zero unless `n` is 0. */
  function NatToString(n: nat): (s: string)
    ensures |s| > 0 && AllDigits(s) && DigitsValue(s) == n
    ensures s[0] == '0' ==> n == 0
  {
    var last := ['0' + (n % 10) as char];
    if n < 10 then
      assert last[..0] == [];
      last
    else
      var s := NatToString(n / 10) + last;
      assert s[..|s| - 1] == NatToString(n / 10);
      assert s[0] == NatToString(n / 10)[0];
      s
  }

  function NatStrings(xs: seq<nat>): (r: seq<string>)
    ensures |r| == |xs|
  {
    if xs == [] then [] else [NatToString(xs[0])] + NatStrings(xs[1..])
  }

  /** How the list of targets is written into the dataset: `str(list)`. */
  function EncodeTargets(xs: seq<nat>): string {
    "[" + Join(NatStrings(xs), ", ") + "]"
  }

  // ---------------------------------------------------------------------
  // Round trip
  // ---------------------------------------------------------------------

  lemma {:induction false} SplitWithoutSeparator(s: string, sep: char)
    requires sep !in s
    ensures Split(s, sep) == [s]
    decreases |s|
  {
    if s != [] {
      SplitWithoutSeparator(s[1..], sep);
      assert [s[0]] + s[1..] == s;
    }
  }

  lemma {:induction false} SplitAtFirstSeparator(a: string, b: string, sep: char)
    requires sep !in a
    ensures Split(a + [sep] + b, sep) == [a] + Split(b, sep)
    decreases |a|
  {
    var s := a + [sep] + b;
    if a == [] {
      assert s[1..] == b;
    } else {
      assert s[1..] == a[1..] + [sep] + b;
      SplitAtFirstSeparator(a[1..], b, sep);
      assert [a[0]] + a[1..] == a;
    }
  }

  lemma {:induction false} TrimLeftPadded(w: string, d: string)
    requires AllSpace(w)
    requires d != [] && !IsSpace(d[0])
    ensures TrimLeft(w + d) == d
    decreases |w|
  {
    var s := w + d;
    if w != [] {
      assert s[0] == w[0] && IsSpace(s[0]);
      assert s[1..] == w[1..] + d;
      assert AllSpace(w[1..]) by {
        forall i | 0 <= i < |w[1..]| ensures IsSpace(w[1..][i]) {
          assert w[1..][i] == w[i + 1];
        }
      }
      TrimLeftPadded(w[1..], d);
      assert TrimLeft(s) == TrimLeft(s[1..]);
    } else {
      assert s == d && s[0] == d[0];
    }
  }

  lemma {:induction false} NoUnderscoreNoDouble(b: string)
    requires '_' !in b
    ensures NoDoubleUnderscore(b)
    decreases |b|
  {
    if |b| >= 2 {
      assert b[1..][0] == b[1];
      NoUnderscoreNoDouble(b[1..]);
    }
  }

  /** `int()` of a natural number's decimal text, after any leading white
      space, gives the number back. */
  lemma ParseIntPadded(w: string, n: nat)
    requires AllSpace(w)
    ensures ParseInt(w + NatToString(n)) == Ok(n)
  {
    var d := NatToString(n);
    StripPadded(w, d);
    LiteralOfDigits(d);
  }

  lemma StripPadded(w: string, d: string)
    requires AllSpace(w) && d != [] && AllDigits(d)
    ensures Strip(w + d) == d
  {
    assert !IsSpace(d[0]) && !IsSpace(d[|d| - 1]);
    TrimLeftPadded(w, d);
  }

  lemma LiteralOfDigits(d: string)
    requires d != [] && AllDigits(d)
    ensures LiteralValue(d) == Some(DigitsValue(d) as int)
  {
    assert !(d[0] == '+' || d[0] == '-');
    assert '_' !in d by {
      forall i | 0 <= i < |d| ensures d[i] != '_' {
        assert IsDigit(d[i]);
      }
    }
    NoUnderscoreNoDouble(d);
    assert IsDigitGroups(d);
    assert DropUnderscores(d) == d;
  }

  /** The pieces the loader's split produces from a written body: the first
      carries the leading text `w`, every later one the blank that follows
      its comma. */
  function Padded(w: string, xs: seq<nat>): (r: seq<string>)
    ensures |r| == |xs|
  {
    seq(|xs|, i requires 0 <= i < |xs| => (if i == 0 then w else " ") + NatToString(xs[i]))
  }

  lemma {:induction false} SplitBody(w: string, xs: seq<nat>)
    requires xs != [] && AllSpace(w)
    ensures Split(w + Join(NatStrings(xs), ", "), ',') == Padded(w, xs)
    decreases |xs|
  {
    var d := NatToString(xs[0]);
    assert ',' !in w + d by {
      forall i | 0 <= i < |w + d| ensures (w + d)[i] != ',' {
        if i < |w| { assert IsSpace(w[i]); } else { assert IsDigit(d[i - |w|]); }
      }
    }
    if |xs| == 1 {
      SplitWithoutSeparator(w + d, ',');
      assert w + Join(NatStrings(xs), ", ") == w + d;
    } else {
      var rest := Join(NatStrings(xs[1..]), ", ");
      assert NatStrings(xs)[1..] == NatStrings(xs[1..]);
      assert w + Join(NatStrings(xs), ", ") == (w + d) + [','] + (" " + rest);
      SplitAtFirstSeparator(w + d, " " + rest, ',');
      SplitBody(" ", xs[1..]);
      assert [w + d] + Padded(" ", xs[1..]) == Padded(w, xs);
    }
  }

  /** Reading every piece of a written body with `int()` gives the list back. */
  lemma ParsePadded(w: string, xs: seq<nat>)
    requires AllSpace(w)
    ensures ParseEach(Padded(w, xs)) == Ok(xs)
  {
    var pieces := Padded(w, xs);
    PaddedPiecesParse(w, xs);
    ParseEachSpec(pieces);
    var r := ParseEach(pieces);
    assert r.Ok?;
    assert |r.value| == |xs| && forall i :: 0 <= i < |xs| ==> r.value[i] == xs[i];
    assert r.value == xs;
  }

  lemma PaddedPiecesParse(w: string, xs: seq<nat>)
    requires AllSpace(w)
    ensures forall i :: 0 <= i < |xs| ==> ParseInt(Padded(w, xs)[i]) == Ok(xs[i] as int)
  {
    forall i | 0 <= i < |xs| ensures ParseInt(Padded(w, xs)[i]) == Ok(xs[i] as int) {
      ParseIntPadded(if i == 0 then w else " ", xs[i]);
    }
  }

  lemma {:induction false} RemoveBracketsAppend(a: string, b: string)
    ensures RemoveBrackets(a + b) == RemoveBrackets(a) + RemoveBrackets(b)
    decreases |a|
  {
    if a != [] {
      assert (a + b)[1..] == a[1..] + b;
      RemoveBracketsAppend(a[1..], b);
    } else {
      assert a + b == b;
    }
  }

  lemma {:induction false} JoinNoBrackets(xs: seq<nat>)
    ensures '[' !in Join(NatStrings(xs), ", ") && ']' !in Join(NatStrings(xs), ", ")
    decreases |xs|
  {
    if |xs| >= 1 {
      var d := NatToString(xs[0]);
      assert '[' !in d && ']' !in d by {
        forall i | 0 <= i < |d| ensures d[i] != '[' && d[i] != ']' {
          assert IsDigit(d[i]);
        }
      }
      if |xs| >= 2 {
        assert NatStrings(xs)[1..] == NatStrings(xs[1..]);
        JoinNoBrackets(xs[1..]);
      }
    }
  }

  /** A body without brackets, written between brackets, is decoded by
      splitting that body. */
  lemma DecodeBracketed(body: string)
    requires body != [] && '[' !in body && ']' !in body
    ensures DecodeTargets("[" + body + "]") == ParseEach(Split(body, ','))
  {
    var t := "[" + body + "]";
    assert t != "[]" by {
      assert |t| > 2;
    }
    RemoveBracketsWrapped(body);
  }

  lemma RemoveBracketsWrapped(body: string)
    requires '[' !in body && ']' !in body
    ensures RemoveBrackets("[" + body + "]") == body
  {
    var a := ['['] + body;
    assert RemoveBrackets(a) == body by {
      assert a[0] == '[' && a[1..] == body;
    }
    assert RemoveBrackets([']']) == [] by {
      assert [']'][1..] == [];
    }
    RemoveBracketsAppend(a, [']']);
    assert "[" + body + "]" == a + [']'];
  }

  lemma JoinNonEmpty(xs: seq<nat>)
    requires xs != []
    ensures Join(NatStrings(xs), ", ") != []
  {
    assert |NatToString(xs[0])| > 0;
    if |xs| >= 2 {
      assert Join(NatStrings(xs), ", ")[..|NatToString(xs[0])|] == NatToString(xs[0]);
    }
  }

  lemma RoundTripNonEmpty(xs: seq<nat>)
    requires xs != []
    ensures DecodeTargets(EncodeTargets(xs)) == Ok(xs)
  {
    EncodedBrackets(xs);
    EncodedPieces(xs);
  }

  /** The encoding's brackets are the only ones, so decoding splits its body. */
  lemma EncodedBrackets(xs: seq<nat>)
    requires xs != []
    ensures DecodeTargets(EncodeTargets(xs)) == ParseEach(Split(Join(NatStrings(xs), ", "), ','))
  {
    var body := Join(NatStrings(xs), ", ");
    JoinNonEmpty(xs);
    JoinNoBrackets(xs);
    DecodeBracketed(body);
  }

  /** The body's pieces are the numerals, each after one space but the first. */
  lemma EncodedPieces(xs: seq<nat>)
    requires xs != []
    ensures ParseEach(Split(Join(NatStrings(xs), ", "), ',')) == Ok(xs)
  {
    var body := Join(NatStrings(xs), ", ");
    assert "" + body == body;
    SplitBody("", xs);
    ParsePadded("", xs);
  }

  /** Round trip: writing a list of indices the way Python prints a list and
      decoding it as the loader does gives the same list, in the same order,
      for the empty list as well as for any other. */
  lemma RoundTrip(xs: seq<nat>)
    ensures DecodeTargets(EncodeTargets(xs)) == Ok(xs)
  {
    if xs == [] {
      assert EncodeTargets(xs) == "[]";
    } else {
      RoundTripNonEmpty(xs);
    }
  }
}
