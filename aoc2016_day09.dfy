/** Decompressed length of a text with `(AxB)` markers: a marker repeats the
    next A characters B times.  Version one repeats them verbatim; version
    two decompresses them first. */
module Aoc2016Day09 {
  import opened Common

  /** A matched marker `(chars x times)` ending just before `end`. */
  datatype Marker = Marker(chars: nat, times: nat, end: nat)

  predicate IsDigit(c: char)
  {
    '0' <= c <= '9'
  }

  /** The first index at or after `i` that does not hold a digit. */
  function DigitEnd(s: string, i: nat): (j: nat)
    requires i <= |s|
    ensures i <= j <= |s|
    ensures forall k :: i <= k < j ==> IsDigit(s[k])
    ensures j < |s| ==> !IsDigit(s[j])
    decreases |s| - i
  {
    if i < |s| && IsDigit(s[i]) then DigitEnd(s, i + 1) else i
  }

  /** Decimal value of the digits s[i..j]. */
  function ParseDigits(s: string, i: nat, j: nat): nat
    requires i <= j <= |s|
    requires forall k :: i <= k < j ==> IsDigit(s[k])
    decreases j - i
  {
    if i == j then 0
    else
      assert IsDigit(s[j - 1]);
      10 * ParseDigits(s, i, j - 1) + (s[j - 1] as int - '0' as int)
  }

  /** `MARKER_PATTERN.match(s, p)` for the pattern `\((\d+)x(\d+)\)`: the
      greedy digit runs are the only way to match. */
  function MatchAt(s: string, p: nat): (m: Option<Marker>)
    ensures m.Some? ==> p < |s| && s[p] == '(' && p + 5 <= m.value.end <= |s| && s[m.value.end - 1] == ')'
  {
    if p < |s| && s[p] == '(' then
      var j := DigitEnd(s, p + 1);
      if j > p + 1 && j < |s| && s[j] == 'x' then
        var k := DigitEnd(s, j + 1);
        if k > j + 1 && k < |s| && s[k] == ')' then
          Some(Marker(ParseDigits(s, p + 1, j), ParseDigits(s, j + 1, k), k + 1))
        else None
      else None
    else None
  }

  /** No '(' in s[i..f]. */
  predicate NoParen(s: string, i: int, f: int)
  {
    forall k :: i <= k < f && 0 <= k < |s| ==> s[k] != '('
  }

  /** `str.find(c)` from index i on: the first index of `c`, or -1. */
  function FindFrom(s: string, c: char, i: nat): (r: int)
    requires i <= |s|
    ensures r == -1 || i <= r < |s|
    ensures r == -1 ==> forall k :: i <= k < |s| ==> s[k] != c
    ensures r >= 0 ==> s[r] == c && forall k :: i <= k < r ==> s[k] != c
    decreases |s| - i
  {
    if i == |s| then -1
    else if s[i] == c then i
    else FindFrom(s, c, i + 1)
  }

  /** `str.find(c)`. */
  function Find(s: string, c: char): (r: int)
    ensures -1 <= r < |s|
    ensures r == -1 <==> c !in s
    ensures r >= 0 ==> s[r] == c && forall k :: 0 <= k < r ==> s[k] != c
  {
    FindFrom(s, c, 0)
  }

  /** Where a match is tried from index `idx`: a negative position is
      clamped to 0 by the regex engine. */
  function Pos(idx: int): nat
  {
    if idx < 0 then 0 else idx
  }

  // ---------------------------------------------------------------------
  // Version one

  /** What the loop of `part_one` adds from index `idx` on. */
  function LengthFrom(s: string, idx: int): int
    requires idx >= -1
    decreases |s| - idx
  {
    if idx >= |s| then 0
    else
      var m := MatchAt(s, Pos(idx));
      if m.Some? then m.value.chars * m.value.times + LengthFrom(s, m.value.end + m.value.chars)
      else 1 + LengthFrom(s, idx + 1)
  }

  /** `part_one` as a function. */
  function DecompressedLength(s: string): int
  {
    var first := Find(s, '(');
    first + LengthFrom(s, first)
  }

  /** One marker step of the `part_one` loop. */
  lemma LengthFromMarker(s: string, i: int, m: Marker)
    requires -1 <= i < |s| && MatchAt(s, Pos(i)) == Some(m)
    ensures LengthFrom(s, i) == m.chars * m.times + LengthFrom(s, m.end + m.chars)
  {
  }

  /** One plain step of the `part_one` loop. */
  lemma LengthFromPlain(s: string, i: int)
    requires -1 <= i < |s| && MatchAt(s, Pos(i)).None?
    ensures LengthFrom(s, i) == 1 + LengthFrom(s, i + 1)
  {
  }

  /** `part_one`. */
  method PartOne(compressedFile: string) returns (outputLen: int)
    ensures outputLen == DecompressedLength(compressedFile)
  {
    outputLen := 0;
    var firstParenthesis := Find(compressedFile, '(');
    outputLen := outputLen + firstParenthesis;
    var idx := firstParenthesis;
    ghost var total := DecompressedLength(compressedFile);
    while idx < |compressedFile|
      invariant idx >= -1
      invariant outputLen + LengthFrom(compressedFile, idx) == total
      decreases |compressedFile| - idx
    {
      var added, next := PartOneStep(compressedFile, idx);
      outputLen := outputLen + added;
      idx := next;
    }
  }

  /** One iteration of the `part_one` loop at `idx`: a marker (AxB) adds
      A*B and jumps past its data; any other character adds one. */
  method PartOneStep(compressedFile: string, idx: int) returns (added: int, next: int)
    requires -1 <= idx < |compressedFile|
    ensures idx < next
    ensures LengthFrom(compressedFile, idx) == added + LengthFrom(compressedFile, next)
  {
    var m := MatchAt(compressedFile, Pos(idx));
    if m.Some? {
      LengthFromMarker(compressedFile, idx, m.value);
      added, next := m.value.chars * m.value.times, m.value.end + m.value.chars;
    } else {
      LengthFromPlain(compressedFile, idx);
      added, next := 1, idx + 1;
    }
  }

  /** `text` repeated `n` times. */
  function Repeat(text: string, n: nat): (r: string)
    ensures |r| == |text| * n
  {
    if n == 0 then [] else text + Repeat(text, n - 1)
  }

  /** The decompressed text itself (version one), from index `i`; None when
      a marker claims more characters than remain. */
  function Decompress(s: string, i: nat): Option<string>
    decreases |s| - i
  {
    if i >= |s| then Some([])
    else
      var m := MatchAt(s, i);
      if m.Some? then
        var next := m.value.end + m.value.chars;
        if next <= |s| then
          var rest := Decompress(s, next);
          if rest.Some? then Some(Repeat(s[m.value.end..next], m.value.times) + rest.value) else None
        else None
      else
        var rest := Decompress(s, i + 1);
        if rest.Some? then Some([s[i]] + rest.value) else None
  }

  /** A marker step of Decompress. */
  lemma DecompressMarker(s: string, i: nat, m: Marker)
    requires i < |s| && MatchAt(s, i) == Some(m) && Decompress(s, i).Some?
    ensures m.end + m.chars <= |s| && Decompress(s, m.end + m.chars).Some?
    ensures Decompress(s, i).value ==
      Repeat(s[m.end..m.end + m.chars], m.times) + Decompress(s, m.end + m.chars).value
  {
  }

  /** A plain step of Decompress. */
  lemma DecompressPlain(s: string, i: nat)
    requires i < |s| && MatchAt(s, i).None? && Decompress(s, i).Some?
    ensures Decompress(s, i + 1).Some? && Decompress(s, i).value == [s[i]] + Decompress(s, i + 1).value
  {
  }

  /** The length the loop computes is the length of the decompressed text. */
  lemma {:induction false} DecompressLength(s: string, i: nat)
    requires Decompress(s, i).Some?
    ensures |Decompress(s, i).value| == LengthFrom(s, i)
    decreases |s| - i
  {
    if i < |s| {
      assert Pos(i) == i;
      var m := MatchAt(s, i);
      if m.Some? {
        var next := m.value.end + m.value.chars;
        DecompressMarker(s, i, m.value);
        DecompressLength(s, next);
        LengthFromMarker(s, i, m.value);
        var seg := s[m.value.end..next];
        assert |seg| == m.value.chars;
        assert |Repeat(seg, m.value.times)| == m.value.chars * m.value.times;
      } else {
        DecompressPlain(s, i);
        DecompressLength(s, i + 1);
        LengthFromPlain(s, i);
      }
    }
  }

  /** Text before the first '(' contributes its own length. */
  lemma {:induction false} PlainPrefix(s: string, i: nat, f: nat)
    requires i <= f <= |s| && NoParen(s, i, f)
    ensures LengthFrom(s, i) == (f - i) + LengthFrom(s, f)
    decreases f - i
  {
    if i < f {
      assert MatchAt(s, i).None?;
      LengthFromPlain(s, i);
      PlainPrefix(s, i + 1, f);
    }
  }

  /** `part_one` on a text equals the loop's sum from index 0. */
  lemma StartAtZero(s: string)
    ensures DecompressedLength(s) == LengthFrom(s, 0)
  {
    var f := Find(s, '(');
    if f == -1 {
      PlainPrefix(s, 0, |s|);
      if |s| > 0 {
        assert MatchAt(s, 0).None?;
        LengthFromPlain(s, -1);
      }
    } else {
      PlainPrefix(s, 0, f);
    }
  }

  /** When the whole text decompresses, `part_one` is its length. */
  lemma PartOneIsLength(s: string)
    requires Decompress(s, 0).Some?
    ensures DecompressedLength(s) == |Decompress(s, 0).value|
  {
    DecompressLength(s, 0);
    StartAtZero(s);
  }

  /** Text without markers keeps its length. */
  lemma PlainTextLength(s: string)
    requires '(' !in s
    ensures DecompressedLength(s) == |s|
  {
    StartAtZero(s);
    PlainPrefix(s, 0, |s|);
  }

  // ---------------------------------------------------------------------
  // Version two

  /** `compressed_file[e : e + n]` with Python's clamping. */
  function Segment(s: string, e: nat, n: nat): (seg: string)
    requires e <= |s|
    ensures |seg| <= |s| - e
  {
    if e + n <= |s| then s[e..e + n] else s[e..]
  }

  /** What the loop of `part_two` adds from index `idx` on. */
  function LengthFrom2(s: string, idx: int): int
    requires idx >= -1
    decreases |s|, |s| - idx
  {
    if idx >= |s| then 0
    else
      var m := MatchAt(s, Pos(idx));
      if m.Some? then Expanded2(s, m.value) + LengthFrom2(s, m.value.end + m.value.chars)
      else 1 + LengthFrom2(s, idx + 1)
  }

  /** What one marker adds in `part_two`: its segment, decompressed, times
      the repeat count. */
  function Expanded2(s: string, m: Marker): int
    requires 0 < m.end <= |s|
    decreases |s|, 0
  {
    DecompressedLength2(Segment(s, m.end, m.chars)) * m.times
  }

  /** `part_two` as a function. */
  function DecompressedLength2(s: string): int
    decreases |s|, |s| + 2
  {
    var first := Find(s, '(');
    first + LengthFrom2(s, first)
  }

  /** The first step of `part_two`. */
  lemma Unfold2(s: string)
    ensures DecompressedLength2(s) == Find(s, '(') + LengthFrom2(s, Find(s, '('))
  {
  }

  /** One marker step of the `part_two` loop. */
  lemma LengthFrom2Marker(s: string, i: int, m: Marker)
    requires -1 <= i < |s| && MatchAt(s, Pos(i)) == Some(m)
    ensures LengthFrom2(s, i) == Expanded2(s, m) + LengthFrom2(s, m.end + m.chars)
  {
  }

  /** One plain step of the `part_two` loop. */
  lemma LengthFrom2Plain(s: string, i: int)
    requires -1 <= i < |s| && MatchAt(s, Pos(i)).None?
    ensures LengthFrom2(s, i) == 1 + LengthFrom2(s, i + 1)
  {
  }

  /** `part_two`: the same loop, recursing into each marker's segment. */
  method PartTwo(compressedFile: string) returns (outputLen: int)
    ensures outputLen == DecompressedLength2(compressedFile)
    decreases |compressedFile|, 1
  {
    outputLen := 0;
    var firstParenthesis := Find(compressedFile, '(');
    outputLen := outputLen + firstParenthesis;
    var idx := firstParenthesis;
    ghost var total := DecompressedLength2(compressedFile);
    Unfold2(compressedFile);
    while idx < |compressedFile|
      invariant idx >= -1
      invariant outputLen + LengthFrom2(compressedFile, idx) == total
      decreases |compressedFile| - idx
    {
      var added, next := PartTwoStep(compressedFile, idx);
      outputLen := outputLen + added;
      idx := next;
    }
  }

  /** One iteration of the `part_two` loop at `idx`: a marker adds its
      segment's decompressed length times the repeat count and jumps past
      the segment; any other character adds one. */
  method PartTwoStep(compressedFile: string, idx: int) returns (added: int, next: int)
    requires -1 <= idx < |compressedFile|
    ensures idx < next
    ensures LengthFrom2(compressedFile, idx) == added + LengthFrom2(compressedFile, next)
    decreases |compressedFile|, 0
  {
    var m := MatchAt(compressedFile, Pos(idx));
    if m.Some? {
      var segment := Segment(compressedFile, m.value.end, m.value.chars);
      var inner := PartTwo(segment);
      added := inner * m.value.times;
      assert added == Expanded2(compressedFile, m.value);
      LengthFrom2Marker(compressedFile, idx, m.value);
      next := m.value.end + m.value.chars;
    } else {
      LengthFrom2Plain(compressedFile, idx);
      added, next := 1, idx + 1;
    }
  }

  /** The fully decompressed text (version two); None when a marker claims
      more characters than remain at any level. */
  function Decompress2(s: string, i: nat): Option<string>
    decreases |s|, |s| - i
  {
    if i >= |s| then Some([])
    else
      var m := MatchAt(s, i);
      if m.Some? then
        var next := m.value.end + m.value.chars;
        if next <= |s| then
          var inner := Decompress2(s[m.value.end..next], 0);
          var rest := Decompress2(s, next);
          if inner.Some? && rest.Some? then Some(Repeat(inner.value, m.value.times) + rest.value) else None
        else None
      else
        var rest := Decompress2(s, i + 1);
        if rest.Some? then Some([s[i]] + rest.value) else None
  }

  /** A marker step of Decompress2. */
  lemma Decompress2Marker(s: string, i: nat, m: Marker)
    requires i < |s| && MatchAt(s, i) == Some(m) && Decompress2(s, i).Some?
    ensures m.end + m.chars <= |s|
    ensures Decompress2(s[m.end..m.end + m.chars], 0).Some? && Decompress2(s, m.end + m.chars).Some?
    ensures Decompress2(s, i).value ==
      Repeat(Decompress2(s[m.end..m.end + m.chars], 0).value, m.times) + Decompress2(s, m.end + m.chars).value
  {
  }

  /** A plain step of Decompress2. */
  lemma Decompress2Plain(s: string, i: nat)
    requires i < |s| && MatchAt(s, i).None? && Decompress2(s, i).Some?
    ensures Decompress2(s, i + 1).Some? && Decompress2(s, i).value == [s[i]] + Decompress2(s, i + 1).value
  {
  }

  lemma {:induction false} PlainPrefix2(s: string, i: nat, f: nat)
    requires i <= f <= |s| && NoParen(s, i, f)
    ensures LengthFrom2(s, i) == (f - i) + LengthFrom2(s, f)
    decreases f - i
  {
    if i < f {
      assert s[i] != '(' && Pos(i) == i;
      LengthFrom2Plain(s, i);
      PlainPrefix2(s, i + 1, f);
    }
  }

  /** `part_two` on a text equals the loop's sum from index 0. */
  lemma StartAtZero2(s: string)
    ensures DecompressedLength2(s) == LengthFrom2(s, 0)
  {
    Unfold2(s);
    var f := Find(s, '(');
    if f == -1 {
      PlainPrefix2(s, 0, |s|);
      if |s| > 0 {
        assert MatchAt(s, 0).None?;
        LengthFrom2Plain(s, -1);
      }
    } else {
      PlainPrefix2(s, 0, f);
    }
  }

  /** The length `part_two` computes is the length of the fully
      decompressed text. */
  lemma {:induction false} Decompress2Length(s: string, i: nat)
    requires Decompress2(s, i).Some?
    ensures |Decompress2(s, i).value| == LengthFrom2(s, i)
    decreases |s|, |s| - i, 1
  {
    if i < |s| {
      var m := MatchAt(s, i);
      if m.Some? {
        Decompress2LengthMarker(s, i, m.value);
      } else {
        Decompress2Plain(s, i);
        Decompress2Length(s, i + 1);
        assert Pos(i) == i;
        LengthFrom2Plain(s, i);
      }
    }
  }

  /** Decompress2Length at a marker. */
  lemma {:induction false} Decompress2LengthMarker(s: string, i: nat, m: Marker)
    requires i < |s| && MatchAt(s, i) == Some(m) && Decompress2(s, i).Some?
    ensures |Decompress2(s, i).value| == LengthFrom2(s, i)
    decreases |s|, |s| - i, 0
  {
    Decompress2Marker(s, i, m);
    var next := m.end + m.chars;
    var seg := s[m.end..next];
    var inner := Decompress2(seg, 0).value;
    var rest := Decompress2(s, next).value;
    Decompress2Length(s, next);
    Decompress2Length(seg, 0);
    MarkerLength2(s, i, m, inner, rest);
  }

  /** The marker case of Decompress2Length, given the two recursive facts. */
  lemma MarkerLength2(s: string, i: nat, m: Marker, inner: string, rest: string)
    requires i < |s| && MatchAt(s, i) == Some(m) && m.end + m.chars <= |s|
    requires Decompress2(s[m.end..m.end + m.chars], 0) == Some(inner)
    requires Decompress2(s, m.end + m.chars) == Some(rest)
    requires |inner| == LengthFrom2(s[m.end..m.end + m.chars], 0)
    requires |rest| == LengthFrom2(s, m.end + m.chars)
    ensures Decompress2(s, i) == Some(Repeat(inner, m.times) + rest)
    ensures |Decompress2(s, i).value| == LengthFrom2(s, i)
  {
    var seg := s[m.end..m.end + m.chars];
    Decompress2MarkerSome(s, i, m, inner, rest);
    StartAtZero2(seg);
    assert Segment(s, m.end, m.chars) == seg;
    assert Expanded2(s, m) == |inner| * m.times;
    assert Pos(i) == i;
    LengthFrom2Marker(s, i, m);
  }

  /** A marker whose segment and rest both decompress decompresses to the
      segment repeated, then the rest. */
  lemma Decompress2MarkerSome(s: string, i: nat, m: Marker, inner: string, rest: string)
    requires i < |s| && MatchAt(s, i) == Some(m) && m.end + m.chars <= |s|
    requires Decompress2(s[m.end..m.end + m.chars], 0) == Some(inner)
    requires Decompress2(s, m.end + m.chars) == Some(rest)
    ensures Decompress2(s, i) == Some(Repeat(inner, m.times) + rest)
  {
  }

  lemma PartTwoIsLength(s: string)
    requires Decompress2(s, 0).Some?
    ensures DecompressedLength2(s) == |Decompress2(s, 0).value|
  {
    Decompress2Length(s, 0);
    StartAtZero2(s);
  }

  /** Without a marker inside a segment both versions agree. */
  lemma VersionsAgreeWithoutNesting(s: string)
    requires '(' !in s
    ensures DecompressedLength2(s) == DecompressedLength(s) == |s|
  {
    PlainTextLength(s);
    StartAtZero2(s);
    PlainPrefix2(s, 0, |s|);
  }
}
