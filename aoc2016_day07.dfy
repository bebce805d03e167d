/** Internet protocol version 7 (2016, day 7): an address is split into
    supernet sequences (outside square brackets) and hypernet sequences
    (inside them).  It supports TLS when a supernet sequence holds an ABBA
    (xyyx with x != y) and no hypernet sequence does, and SSL when a
    supernet sequence holds an ABA (xyx with x != y) whose BAB (yxy) occurs
    in some hypernet sequence. */
module Aoc2016Day07 {

  /** An ABBA starts at index i of the chunk: the pair at i differs, and
      the pair at i + 3, i + 2 read backwards equals it. */
  predicate IsAbba(chunk: string, i: int)
  {
    0 <= i && i + 3 < |chunk| && chunk[i] != chunk[i + 1]
    && chunk[i] == chunk[i + 3] && chunk[i + 1] == chunk[i + 2]
  }

  /** The inner loop of `support_tls`: an ABBA at some index from i on
      (`range(len(chunk) - 3)`). */
  predicate AbbaFrom(chunk: string, i: nat)
    decreases |chunk| - i
  {
    if i + 3 >= |chunk| then false
    else if chunk[i] == chunk[i + 1] then AbbaFrom(chunk, i + 1)
    else if [chunk[i], chunk[i + 1]] == [chunk[i + 3], chunk[i + 2]] then true
    else AbbaFrom(chunk, i + 1)
  }

  /** `support_tls`: some chunk holds an ABBA. */
  predicate SupportTls(chunks: seq<string>)
  {
    if chunks == [] then false
    else AbbaFrom(chunks[0], 0) || SupportTls(chunks[1..])
  }

  lemma {:induction false} AbbaFromMeaning(chunk: string, i: nat)
    ensures AbbaFrom(chunk, i) <==> exists j :: i <= j && IsAbba(chunk, j)
    decreases |chunk| - i
  {
    if i + 3 < |chunk| {
      AbbaFromMeaning(chunk, i + 1);
      if !IsAbba(chunk, i) {
        assert (exists j :: i <= j && IsAbba(chunk, j)) ==> exists j :: i + 1 <= j && IsAbba(chunk, j);
      }
    }
  }

  /** The scan of `support_tls` finds an ABBA exactly when there is one in
      some chunk. */
  lemma {:induction false} SupportTlsMeaning(chunks: seq<string>)
    ensures SupportTls(chunks) <==> exists k, i :: 0 <= k < |chunks| && IsAbba(chunks[k], i)
  {
    if chunks != [] {
      AbbaFromMeaning(chunks[0], 0);
      SupportTlsMeaning(chunks[1..]);
      if exists k, i :: 0 <= k < |chunks| && IsAbba(chunks[k], i) {
        var k, i :| 0 <= k < |chunks| && IsAbba(chunks[k], i);
        if k > 0 {
          assert IsAbba(chunks[1..][k - 1], i);
        }
      }
      if exists k, i :: 0 <= k < |chunks[1..]| && IsAbba(chunks[1..][k], i) {
        var k, i :| 0 <= k < |chunks[1..]| && IsAbba(chunks[1..][k], i);
        assert IsAbba(chunks[k + 1], i);
      }
    }
  }

  /** An address: its supernet chunks and its hypernet chunks. */
  datatype Address = Address(supernet: seq<string>, hypernet: seq<string>)

  predicate Tls(ip: Address)
  {
    SupportTls(ip.supernet) && !SupportTls(ip.hypernet)
  }

  /** `part_one`: the number of addresses supporting TLS. */
  function PartOne(ips: seq<Address>): (r: nat)
    ensures r <= |ips|
  {
    if ips == [] then 0 else PartOne(ips[..|ips| - 1]) + if Tls(ips[|ips| - 1]) then 1 else 0
  }

  /** An ABBA inside brackets rules an address out whatever its supernet
      holds. */
  lemma HypernetAbbaRulesOut(ip: Address, k: int, i: int)
    requires 0 <= k < |ip.hypernet| && IsAbba(ip.hypernet[k], i)
    ensures !Tls(ip)
  {
    SupportTlsMeaning(ip.hypernet);
  }

  /** An ABA starts at index i of the chunk. */
  predicate IsAba(chunk: string, i: int)
  {
    0 <= i && i + 2 < |chunk| && chunk[i] == chunk[i + 2] && chunk[i] != chunk[i + 1]
  }

  /** The BAB matching the ABA at index i. */
  function Bab(chunk: string, i: int): (r: string)
    requires 0 <= i && i + 1 < |chunk|
    ensures |r| == 3
  {
    [chunk[i + 1], chunk[i], chunk[i + 1]]
  }

  /** `t in s` for strings: t occurs in s. */
  predicate Contains(s: string, t: string)
  {
    t <= s || (s != [] && Contains(s[1..], t))
  }

  /** t occurs in s at index j. */
  predicate OccursAt(s: string, t: string, j: int)
  {
    0 <= j && j + |t| <= |s| && s[j..j + |t|] == t
  }

  /** Contains finds every occurrence of t in s... */
  lemma {:induction false} ContainsAt(s: string, t: string, j: int)
    requires OccursAt(s, t, j)
    ensures Contains(s, t)
  {
    if j > 0 {
      assert OccursAt(s[1..], t, j - 1);
      ContainsAt(s[1..], t, j - 1);
    } else {
      assert t <= s;
    }
  }

  /** ... and holds only where there is one. */
  lemma {:induction false} ContainsWitness(s: string, t: string) returns (j: int)
    requires Contains(s, t)
    ensures OccursAt(s, t, j)
  {
    if t <= s {
      j := 0;
    } else {
      var j' := ContainsWitness(s[1..], t);
      j := j' + 1;
      assert s[j..j + |t|] == s[1..][j'..j' + |t|];
    }
  }

  /** `any(bab in x for x in hypernet)`. */
  predicate InSome(chunks: seq<string>, t: string)
  {
    if chunks == [] then false else Contains(chunks[0], t) || InSome(chunks[1..], t)
  }

  lemma {:induction false} InSomeMeaning(chunks: seq<string>, t: string)
    ensures InSome(chunks, t) <==> exists h :: 0 <= h < |chunks| && Contains(chunks[h], t)
  {
    if chunks != [] {
      InSomeMeaning(chunks[1..], t);
      if exists h :: 0 <= h < |chunks| && Contains(chunks[h], t) {
        var h :| 0 <= h < |chunks| && Contains(chunks[h], t);
        if h > 0 {
          assert Contains(chunks[1..][h - 1], t);
        }
      }
    }
  }

  /** The inner loop of `support_ssl`: an ABA at some index from i on
      (`range(len(chunk) - 2)`) whose BAB is in a hypernet chunk. */
  predicate AbaFrom(chunk: string, i: nat, hypernet: seq<string>)
    decreases |chunk| - i
  {
    if i + 2 >= |chunk| then false
    else if !(chunk[i] == chunk[i + 2] && chunk[i] != chunk[i + 1]) then AbaFrom(chunk, i + 1, hypernet)
    else if InSome(hypernet, [chunk[i + 1], chunk[i], chunk[i + 1]]) then true
    else AbaFrom(chunk, i + 1, hypernet)
  }

  /** `support_ssl`. */
  predicate SupportSsl(supernet: seq<string>, hypernet: seq<string>)
  {
    if supernet == [] then false
    else AbaFrom(supernet[0], 0, hypernet) || SupportSsl(supernet[1..], hypernet)
  }

  /** An ABA at index i of the chunk whose BAB occurs in some hypernet
      chunk. */
  predicate SslAt(chunk: string, i: int, hypernet: seq<string>)
  {
    IsAba(chunk, i) && exists h :: 0 <= h < |hypernet| && Contains(hypernet[h], Bab(chunk, i))
  }

  lemma {:induction false} AbaFromMeaning(chunk: string, i: nat, hypernet: seq<string>)
    ensures AbaFrom(chunk, i, hypernet) <==> exists j :: i <= j && SslAt(chunk, j, hypernet)
    decreases |chunk| - i
  {
    if i + 2 < |chunk| {
      AbaFromMeaning(chunk, i + 1, hypernet);
      InSomeMeaning(hypernet, [chunk[i + 1], chunk[i], chunk[i + 1]]);
      if !SslAt(chunk, i, hypernet) {
        assert (exists j :: i <= j && SslAt(chunk, j, hypernet)) ==> exists j :: i + 1 <= j && SslAt(chunk, j, hypernet);
      }
    }
  }

  /** The scan of `support_ssl` succeeds exactly when some supernet chunk
      holds an ABA whose BAB occurs in some hypernet chunk. */
  lemma {:induction false} SupportSslMeaning(supernet: seq<string>, hypernet: seq<string>)
    ensures SupportSsl(supernet, hypernet) <==> exists k, i :: 0 <= k < |supernet| && SslAt(supernet[k], i, hypernet)
  {
    if supernet != [] {
      AbaFromMeaning(supernet[0], 0, hypernet);
      SupportSslMeaning(supernet[1..], hypernet);
      if exists k, i :: 0 <= k < |supernet| && SslAt(supernet[k], i, hypernet) {
        var k, i :| 0 <= k < |supernet| && SslAt(supernet[k], i, hypernet);
        if k > 0 {
          assert SslAt(supernet[1..][k - 1], i, hypernet);
        }
      }
      if exists k, i :: 0 <= k < |supernet[1..]| && SslAt(supernet[1..][k], i, hypernet) {
        var k, i :| 0 <= k < |supernet[1..]| && SslAt(supernet[1..][k], i, hypernet);
        assert SslAt(supernet[k + 1], i, hypernet);
      }
    }
  }

  /** Without hypernet chunks no address supports SSL. */
  lemma NoHypernetNoSsl(supernet: seq<string>)
    ensures !SupportSsl(supernet, [])
  {
    SupportSslMeaning(supernet, []);
  }

  /** `part_two`: the number of addresses supporting SSL. */
  function PartTwo(ips: seq<Address>): (r: nat)
    ensures r <= |ips|
  {
    if ips == [] then 0
    else PartTwo(ips[..|ips| - 1]) + if SupportSsl(ips[|ips| - 1].supernet, ips[|ips| - 1].hypernet) then 1 else 0
  }

  /** Both parts count over a list the sum of their counts over its
      halves. */
  lemma {:induction false} PartsAppend(a: seq<Address>, b: seq<Address>)
    ensures PartOne(a + b) == PartOne(a) + PartOne(b)
    ensures PartTwo(a + b) == PartTwo(a) + PartTwo(b)
  {
    if b == [] {
      assert a + b == a;
    } else {
      var init := b[..|b| - 1];
      assert (a + b)[..|a + b| - 1] == a + init;
      assert (a + b)[|a + b| - 1] == b[|b| - 1];
      PartsAppend(a, init);
    }
  }

  /** A piece of an address line: text outside brackets, or the text of a
      bracketed group. */
  datatype Piece = Outside(text: string) | Inside(text: string)

  /** The index of the first ']' in s at or after i, or |s|. */
  function CloseFrom(s: string, i: nat): (r: nat)
    requires i <= |s|
    ensures i <= r <= |s| && (r < |s| ==> s[r] == ']')
    ensures forall j :: i <= j < r ==> s[j] != ']'
    decreases |s| - i
  {
    if i == |s| || s[i] == ']' then i else CloseFrom(s, i + 1)
  }

  predicate IsBracket(c: char)
  {
    c == '[' || c == ']'
  }

  /** The end of the run of non-bracket characters of s from i. */
  function RunEnd(s: string, i: nat): (r: nat)
    requires i <= |s|
    ensures i <= r <= |s| && (r < |s| ==> IsBracket(s[r]))
    ensures forall j :: i <= j < r ==> !IsBracket(s[j])
    decreases |s| - i
  {
    if i == |s| || IsBracket(s[i]) then i else RunEnd(s, i + 1)
  }

  /** `re.finditer(r"\[([^]]+)]|([^\[\]]+)", line)`: a '[' followed by at
      least one character before the next ']' is a bracketed group; else a
      run of non-bracket characters is outside text; a character matching
      neither (a stray bracket) is skipped. */
  function Pieces(s: string): seq<Piece>
    decreases |s|
  {
    if s == [] then []
    else if s[0] == '[' && CloseFrom(s, 1) < |s| && CloseFrom(s, 1) > 1 then
      [Inside(s[1..CloseFrom(s, 1)])] + Pieces(s[CloseFrom(s, 1) + 1..])
    else if !IsBracket(s[0]) then
      [Outside(s[..RunEnd(s, 0)])] + Pieces(s[RunEnd(s, 0)..])
    else Pieces(s[1..])
  }

  /** The texts of the pieces of one kind, in order. */
  function Texts(pieces: seq<Piece>, inside: bool): seq<string>
  {
    if pieces == [] then []
    else (if pieces[0].Inside? == inside then [pieces[0].text] else []) + Texts(pieces[1..], inside)
  }

  /** `parse_input` for one line. */
  function Parse(line: string): Address
  {
    var pieces := Pieces(line);
    Address(Texts(pieces, false), Texts(pieces, true))
  }

  /** The line a list of pieces is written as. */
  function Render(pieces: seq<Piece>): string
  {
    if pieces == [] then []
    else
      (match pieces[0]
       case Outside(t) => t
       case Inside(t) => "[" + t + "]") + Render(pieces[1..])
  }

  /** Pieces a line can be written with unambiguously: non-empty texts
      without brackets, and no two outside texts in a row (they would read
      as one). */
  predicate WellFormed(pieces: seq<Piece>)
  {
    (forall k :: 0 <= k < |pieces| ==> pieces[k].text != [] && forall j :: 0 <= j < |pieces[k].text| ==> !IsBracket(pieces[k].text[j]))
    && forall k :: 0 <= k < |pieces| - 1 ==> !(pieces[k].Outside? && pieces[k + 1].Outside?)
  }

  /** A bracketed group is read back as one hypernet piece. */
  lemma PiecesInside(t: string, tail: string)
    requires t != [] && forall j :: 0 <= j < |t| ==> !IsBracket(t[j])
    ensures Pieces("[" + t + "]" + tail) == [Inside(t)] + Pieces(tail)
  {
    var s := "[" + t + "]" + tail;
    CloseAt(s, 1, |t| + 1);
    assert s[1..|t| + 1] == t;
    assert s[|t| + 2..] == tail;
  }

  /** A run of non-bracket text followed by a bracket or the end is read
      back as one supernet piece. */
  lemma PiecesOutside(t: string, tail: string)
    requires t != [] && forall j :: 0 <= j < |t| ==> !IsBracket(t[j])
    requires tail == [] || tail[0] == '['
    ensures Pieces(t + tail) == [Outside(t)] + Pieces(tail)
  {
    var s := t + tail;
    RunEndAt(s, 0, |t|);
    assert s[..|t|] == t && s[|t|..] == tail;
  }

  /** Parsing recovers the pieces a line was written with. */
  lemma {:induction false} PiecesRender(pieces: seq<Piece>)
    requires WellFormed(pieces)
    ensures Pieces(Render(pieces)) == pieces
  {
    if pieces != [] {
      var rest := pieces[1..];
      assert WellFormed(rest) by {
        forall k | 0 <= k < |rest| ensures rest[k] == pieces[k + 1] { }
      }
      PiecesRender(rest);
      var tail := Render(rest);
      var t := pieces[0].text;
      assert t != [] && forall j :: 0 <= j < |t| ==> !IsBracket(t[j]);
      if pieces[0].Inside? {
        assert Render(pieces) == "[" + t + "]" + tail;
        PiecesInside(t, tail);
      } else {
        assert Render(pieces) == t + tail;
        if rest != [] {
          assert rest[0].Inside?;
          assert tail == "[" + rest[0].text + "]" + Render(rest[1..]);
        }
        PiecesOutside(t, tail);
      }
    }
  }

  /** A line written from well-formed pieces parses into the outside texts
      as supernet and the bracketed texts as hypernet, in order. */
  lemma ParseRender(pieces: seq<Piece>)
    requires WellFormed(pieces)
    ensures Parse(Render(pieces)) == Address(Texts(pieces, false), Texts(pieces, true))
  {
    PiecesRender(pieces);
  }

  lemma CloseAt(s: string, i: nat, r: nat)
    requires i <= r < |s| && s[r] == ']' && forall j :: i <= j < r ==> s[j] != ']'
    ensures CloseFrom(s, i) == r
  {
    var c := CloseFrom(s, i);
    assert !(c < r) && !(c > r);
  }

  lemma RunEndAt(s: string, i: nat, r: nat)
    requires i <= r <= |s| && (r < |s| ==> IsBracket(s[r])) && forall j :: i <= j < r ==> !IsBracket(s[j])
    ensures RunEnd(s, i) == r
  {
    var e := RunEnd(s, i);
    assert !(e < r) && !(e > r);
  }

  /** Every parsed chunk is non-empty; supernet chunks hold no bracket and
      hypernet chunks no ']'. */
  lemma {:induction false} PiecesShape(s: string)
    ensures forall k :: 0 <= k < |Pieces(s)| ==> Pieces(s)[k].text != []
    ensures forall k, j :: 0 <= k < |Pieces(s)| && Pieces(s)[k].Outside? && 0 <= j < |Pieces(s)[k].text| ==> !IsBracket(Pieces(s)[k].text[j])
    ensures forall k, j :: 0 <= k < |Pieces(s)| && Pieces(s)[k].Inside? && 0 <= j < |Pieces(s)[k].text| ==> Pieces(s)[k].text[j] != ']'
    decreases |s|
  {
    if s != [] {
      if s[0] == '[' && CloseFrom(s, 1) < |s| && CloseFrom(s, 1) > 1 {
        PiecesShape(s[CloseFrom(s, 1) + 1..]);
      } else if !IsBracket(s[0]) {
        PiecesShape(s[RunEnd(s, 0)..]);
      } else {
        PiecesShape(s[1..]);
      }
    }
  }
}
