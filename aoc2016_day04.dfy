/** Security through obscurity (2016, day 4): a room is real when its
    checksum lists the five most common letters of its encrypted name (ties
    in alphabetical order); a real room's name is decrypted by shifting
    every letter forward by the sector id, with dashes becoming spaces. */
module Aoc2016Day04 {
  import opened Common

  /** A room as parsed: `([\D]+)-(\d+)\[(\D+)\]`. */
  datatype Room = Room(name: string, sectorId: int, checksum: string)

  /** The number of occurrences of c in s. */
  function Occurrences(s: string, c: char): (r: nat)
    ensures r <= |s|
  {
    if s == [] then 0 else Occurrences(s[..|s| - 1], c) + (if s[|s| - 1] == c then 1 else 0)
  }

  /** `name.replace("-", "")`. */
  function Letters(name: string): (r: string)
    ensures |r| <= |name|
  {
    if name == [] then []
    else Letters(name[..|name| - 1]) + (if name[|name| - 1] == '-' then [] else [name[|name| - 1]])
  }

  /** The order of `Counter(sorted letters).most_common()`: more occurrences
      first; equal counts keep the order of first appearance in the sorted
      letters, which is alphabetical. */
  predicate Before(letters: string, a: char, b: char)
  {
    Occurrences(letters, a) > Occurrences(letters, b)
    || (Occurrences(letters, a) == Occurrences(letters, b) && a < b)
  }

  /** The first of the letters before index n in that order, skipping
      `excluded`. */
  function Best(letters: string, n: nat, excluded: set<char>): Option<char>
    requires n <= |letters|
  {
    if n == 0 then None
    else
      var c := letters[n - 1];
      var rest := Best(letters, n - 1, excluded);
      if c in excluded then rest
      else if rest.None? then Some(c)
      else if Before(letters, c, rest.value) then Some(c)
      else rest
  }

  /** Best picks a letter not excluded that comes before every other one
      not excluded, and picks none only when all are excluded. */
  lemma {:induction false} BestMeaning(letters: string, n: nat, excluded: set<char>)
    requires n <= |letters|
    ensures Best(letters, n, excluded).Some? ==>
      var b := Best(letters, n, excluded).value;
      b in letters[..n] && b !in excluded
      && forall i :: 0 <= i < n && letters[i] !in excluded && letters[i] != b ==> Before(letters, b, letters[i])
    ensures Best(letters, n, excluded).None? ==> forall i :: 0 <= i < n ==> letters[i] in excluded
  {
    if n > 0 {
      BestMeaning(letters, n - 1, excluded);
      assert letters[..n] == letters[..n - 1] + [letters[n - 1]];
    }
  }

  /** The first k letters in `most_common` order, skipping `excluded`. */
  function Top(letters: string, k: nat, excluded: set<char>): (r: string)
    ensures |r| <= k
  {
    if k == 0 then []
    else
      match Best(letters, |letters|, excluded)
      case None => []
      case Some(b) => [b] + Top(letters, k - 1, excluded + {b})
  }

  /** `[letter for letter, _ in Counter(letters).most_common(k)]`. */
  function MostCommon(letters: string, k: nat): string
  {
    Top(letters, k, {})
  }

  /** The letters picked come in strict `most_common` order, every letter
      left out comes after all of them, and fewer than k are picked only
      when every letter was. */
  lemma {:induction false} TopRanked(letters: string, k: nat, excluded: set<char>)
    ensures forall i :: 0 <= i < |Top(letters, k, excluded)| ==>
      Top(letters, k, excluded)[i] in letters && Top(letters, k, excluded)[i] !in excluded
    ensures forall i, j :: 0 <= i < j < |Top(letters, k, excluded)| ==>
      Before(letters, Top(letters, k, excluded)[i], Top(letters, k, excluded)[j])
    ensures forall c, i :: c in letters && c !in excluded && c !in Top(letters, k, excluded) && 0 <= i < |Top(letters, k, excluded)| ==>
      Before(letters, Top(letters, k, excluded)[i], c)
    ensures |Top(letters, k, excluded)| < k ==> forall c :: c in letters && c !in excluded ==> c in Top(letters, k, excluded)
  {
    if k > 0 && Best(letters, |letters|, excluded).None? {
      BestMeaning(letters, |letters|, excluded);
    } else if k > 0 {
      var b := Best(letters, |letters|, excluded).value;
      var rest := Top(letters, k - 1, excluded + {b});
      BestMeaning(letters, |letters|, excluded);
      assert letters[..|letters|] == letters;
      TopRanked(letters, k - 1, excluded + {b});
      assert Top(letters, k, excluded) == [b] + rest;
    }
  }

  /** `most_common(k)`: at most k distinct letters of the name, in order of
      decreasing count with ties alphabetical, and no letter left out is
      ranked above one picked. */
  lemma MostCommonRanked(letters: string, k: nat)
    ensures |MostCommon(letters, k)| <= k
    ensures forall i :: 0 <= i < |MostCommon(letters, k)| ==> MostCommon(letters, k)[i] in letters
    ensures forall i, j :: 0 <= i < j < |MostCommon(letters, k)| ==>
      Before(letters, MostCommon(letters, k)[i], MostCommon(letters, k)[j])
    ensures forall c, i :: c in letters && c !in MostCommon(letters, k) && 0 <= i < |MostCommon(letters, k)| ==>
      Before(letters, MostCommon(letters, k)[i], c)
    ensures |MostCommon(letters, k)| < k ==> forall c :: c in letters ==> c in MostCommon(letters, k)
  {
    TopRanked(letters, k, {});
  }

  /** The comparison loop of `is_valid`: Some(false) at the first mismatch,
      None where `checksum[i]` runs past the checksum (IndexError). */
  function CompareChecksum(top: string, checksum: string): Option<bool>
  {
    if top == [] then Some(true)
    else if checksum == [] then None
    else if top[0] != checksum[0] then Some(false)
    else CompareChecksum(top[1..], checksum[1..])
  }

  /** The comparison succeeds exactly when the checksum starts with the
      letters, and raises exactly when the checksum is a proper prefix of
      them. */
  lemma {:induction false} CompareChecksumMeaning(top: string, checksum: string)
    ensures CompareChecksum(top, checksum) == Some(true) <==> |top| <= |checksum| && checksum[..|top|] == top
    ensures CompareChecksum(top, checksum).None? <==> |checksum| < |top| && top[..|checksum|] == checksum
  {
    if top != [] && checksum != [] && top[0] == checksum[0] {
      CompareChecksumMeaning(top[1..], checksum[1..]);
      assert top == [top[0]] + top[1..] && checksum == [checksum[0]] + checksum[1..];
    }
  }

  /** `is_valid`. */
  function IsValid(room: Room): Option<bool>
  {
    CompareChecksum(MostCommon(Letters(room.name), 5), room.checksum)
  }

  /** A real room's checksum starts with its most common letters. */
  lemma ValidMeansChecksumPrefix(room: Room)
    ensures IsValid(room) == Some(true) <==>
      var top := MostCommon(Letters(room.name), 5);
      |top| <= |room.checksum| && room.checksum[..|top|] == top
  {
    CompareChecksumMeaning(MostCommon(Letters(room.name), 5), room.checksum);
  }

  /** The letter shift of `get_decrypted_name`:
      `chr(ord("a") + (ord(c) - ord("a") + sector_id) % 26)`. */
  function Shift(c: char, sectorId: int): (r: char)
    ensures 'a' <= r <= 'z'
  {
    ('a' as int + (c as int - 'a' as int + sectorId) % 26) as char
  }

  predicate Lower(c: char)
  {
    'a' <= c <= 'z'
  }

  /** Shifting a lower-case letter by s and then by t shifts it by s + t. */
  lemma ShiftCompose(c: char, s: int, t: int)
    ensures Shift(Shift(c, s), t) == Shift(c, s + t)
  {
    var x := c as int - 'a' as int + s;
    assert Shift(c, s) as int - 'a' as int == x % 26;
    assert x == 26 * (x / 26) + x % 26;
    ModPeriod(x % 26 + t, 26, x / 26);
  }

  /** Shifting a lower-case letter by a multiple of 26 leaves it alone. */
  lemma ShiftPeriod(c: char, q: int)
    requires Lower(c)
    ensures Shift(c, 26 * q) == c
  {
    var x := c as int - 'a' as int;
    ModPeriod(x, 26, q);
    ModUnique(x, 26, 0, x);
  }

  /** Shifting back by the sector id recovers the encrypted letter. */
  lemma ShiftInverse(c: char, sectorId: int)
    requires Lower(c)
    ensures Shift(Shift(c, sectorId), -sectorId) == c
  {
    ShiftCompose(c, sectorId, -sectorId);
    ShiftPeriod(c, 0);
  }

  /** `name.split("-")`: the pieces between dashes, empty ones included. */
  function Split(s: string): (r: seq<string>)
    ensures |r| >= 1
  {
    if s == [] then [[]]
    else
      var words := Split(s[..|s| - 1]);
      var c := s[|s| - 1];
      if c == '-' then words + [[]]
      else words[..|words| - 1] + [words[|words| - 1] + [c]]
  }

  /** `" ".join(words)`. */
  function Join(words: seq<string>): string
  {
    if words == [] then []
    else if |words| == 1 then words[0]
    else Join(words[..|words| - 1]) + [' '] + words[|words| - 1]
  }

  /** The shifted letters of one word. */
  function ShiftWord(w: string, sectorId: int): (r: string)
    ensures |r| == |w|
  {
    if w == [] then [] else ShiftWord(w[..|w| - 1], sectorId) + [Shift(w[|w| - 1], sectorId)]
  }

  function ShiftWords(words: seq<string>, sectorId: int): (r: seq<string>)
    ensures |r| == |words|
  {
    if words == [] then [] else ShiftWords(words[..|words| - 1], sectorId) + [ShiftWord(words[|words| - 1], sectorId)]
  }

  /** `get_decrypted_name`. */
  function DecryptedName(room: Room): string
  {
    Join(ShiftWords(Split(room.name), room.sectorId))
  }

  /** What decryption does to one character of the name. */
  function DecryptChar(c: char, sectorId: int): char
  {
    if c == '-' then ' ' else Shift(c, sectorId)
  }

  /** The character-by-character reading of decryption. */
  function DecryptChars(s: string, sectorId: int): (r: string)
    ensures |r| == |s|
  {
    if s == [] then [] else DecryptChars(s[..|s| - 1], sectorId) + [DecryptChar(s[|s| - 1], sectorId)]
  }

  lemma {:induction false} JoinAppendChar(words: seq<string>, w: string, c: char)
    ensures Join(words + [w + [c]]) == Join(words + [w]) + [c]
  {
    if words != [] {
      assert (words + [w + [c]])[..|words|] == words;
      assert (words + [w])[..|words|] == words;
    }
  }

  lemma {:induction false} ShiftWordsLast(words: seq<string>, w: string, sectorId: int)
    ensures ShiftWords(words + [w], sectorId) == ShiftWords(words, sectorId) + [ShiftWord(w, sectorId)]
  {
    assert (words + [w])[..|words|] == words;
  }

  /** Splitting on dashes, shifting every word and joining with spaces is
      the same as turning each dash into a space and shifting every other
      character: decryption keeps the length and the word boundaries. */
  lemma {:induction false} DecryptedIsCharMap(s: string, sectorId: int)
    ensures Join(ShiftWords(Split(s), sectorId)) == DecryptChars(s, sectorId)
  {
    if s != [] {
      var init, c := s[..|s| - 1], s[|s| - 1];
      var words := Split(init);
      DecryptedIsCharMap(init, sectorId);
      if c == '-' {
        ShiftWordsLast(words, [], sectorId);
        assert ShiftWords(words, sectorId) != [];
      } else {
        var front, last := words[..|words| - 1], words[|words| - 1];
        assert words == front + [last];
        ShiftWordsLast(front, last + [c], sectorId);
        ShiftWordsLast(front, last, sectorId);
        JoinAppendChar(ShiftWords(front, sectorId), ShiftWord(last, sectorId), Shift(c, sectorId));
      }
    }
  }

  /** The decrypted name has one character per character of the encrypted
      name: a space for each dash and a shifted letter otherwise. */
  lemma DecryptedNameAt(room: Room, i: int)
    requires 0 <= i < |room.name|
    ensures |DecryptedName(room)| == |room.name|
    ensures DecryptedName(room)[i] == DecryptChar(room.name[i], room.sectorId)
  {
    DecryptedIsCharMap(room.name, room.sectorId);
    DecryptCharsAt(room.name, room.sectorId, i);
  }

  lemma {:induction false} DecryptCharsAt(s: string, sectorId: int, i: int)
    requires 0 <= i < |s|
    ensures DecryptChars(s, sectorId)[i] == DecryptChar(s[i], sectorId)
  {
    if i < |s| - 1 {
      DecryptCharsAt(s[..|s| - 1], sectorId, i);
    }
  }

  /** The sector ids of the real rooms, in order. */
  function RealIds(rooms: seq<Room>): (r: seq<int>)
    ensures |r| <= |rooms|
  {
    if rooms == [] then []
    else
      var init, last := rooms[..|rooms| - 1], rooms[|rooms| - 1];
      RealIds(init) + if IsValid(last) == Some(true) then [last.sectorId] else []
  }

  /** `part_one`: the sum of the sector ids of the real rooms; None when a
      checksum is too short for the comparison (IndexError). */
  function PartOne(rooms: seq<Room>): (r: Option<int>)
    ensures r.Some? && (forall k :: 0 <= k < |rooms| ==> rooms[k].sectorId >= 0) ==> r.value >= 0
  {
    if Checked(rooms, |rooms|) then
      assert (forall k :: 0 <= k < |rooms| ==> rooms[k].sectorId >= 0) ==> Sum(RealIds(rooms)) >= 0 by {
        if forall k :: 0 <= k < |rooms| ==> rooms[k].sectorId >= 0 {
          RealIdsNonNegative(rooms);
          SumNonNegative(RealIds(rooms));
        }
      }
      Some(Sum(RealIds(rooms)))
    else None
  }

  /** Part one fails exactly when some room's checksum is too short, and
      is 0 when no room is real. */
  lemma PartOneMeaning(rooms: seq<Room>)
    ensures PartOne(rooms).None? <==> exists k :: 0 <= k < |rooms| && IsValid(rooms[k]).None?
    ensures (forall k :: 0 <= k < |rooms| ==> IsValid(rooms[k]) == Some(false)) ==> PartOne(rooms) == Some(0)
  {
    if forall k :: 0 <= k < |rooms| ==> IsValid(rooms[k]) == Some(false) {
      RealIdsNone(rooms);
    }
  }

  /** With no real room there is nothing to sum. */
  lemma {:induction false} RealIdsNone(rooms: seq<Room>)
    requires forall k :: 0 <= k < |rooms| ==> IsValid(rooms[k]) != Some(true)
    ensures RealIds(rooms) == []
  {
    if rooms != [] {
      var init := rooms[..|rooms| - 1];
      assert forall k :: 0 <= k < |init| ==> init[k] == rooms[k];
      RealIdsNone(init);
    }
  }

  lemma {:induction false} RealIdsNonNegative(rooms: seq<Room>)
    requires forall k :: 0 <= k < |rooms| ==> rooms[k].sectorId >= 0
    ensures forall i :: 0 <= i < |RealIds(rooms)| ==> RealIds(rooms)[i] >= 0
  {
    if rooms != [] {
      var init := rooms[..|rooms| - 1];
      assert forall k :: 0 <= k < |init| ==> init[k] == rooms[k];
      RealIdsNonNegative(init);
    }
  }

  lemma {:induction false} RealIdsAppend(a: seq<Room>, b: seq<Room>)
    ensures RealIds(a + b) == RealIds(a) + RealIds(b)
  {
    if b == [] {
      assert a + b == a;
    } else {
      var init, last := b[..|b| - 1], b[|b| - 1];
      assert (a + b)[..|a + b| - 1] == a + init;
      assert (a + b)[|a + b| - 1] == last;
      RealIdsAppend(a, init);
      var extra := if IsValid(last) == Some(true) then [last.sectorId] else [];
      assert RealIds(a + b) == RealIds(a + init) + extra;
      assert RealIds(b) == RealIds(init) + extra;
    }
  }

  /** Two lists of rooms that check without error concatenate to one. */
  lemma CheckedAppend(a: seq<Room>, b: seq<Room>)
    requires Checked(a, |a|) && Checked(b, |b|)
    ensures Checked(a + b, |a + b|)
  {
    forall j | 0 <= j < |a + b| ensures IsValid((a + b)[j]).Some? {
      if j >= |a| { assert (a + b)[j] == b[j - |a|]; }
    }
  }

  /** The sum over a list of rooms is the sum over its two halves. */
  lemma PartOneAppend(a: seq<Room>, b: seq<Room>)
    requires PartOne(a).Some? && PartOne(b).Some?
    ensures PartOne(a + b) == Some(PartOne(a).value + PartOne(b).value)
  {
    assert Checked(a, |a|) && Checked(b, |b|);
    CheckedAppend(a, b);
    var xs, ys := RealIds(a), RealIds(b);
    RealIdsAppend(a, b);
    SumAppend(xs, ys);
  }

  /** A single room counts its sector id exactly when it is real. */
  lemma PartOneSingle(room: Room)
    requires IsValid(room).Some?
    ensures PartOne([room]) == Some(if IsValid(room) == Some(true) then room.sectorId else 0)
  {
    assert [room][..0] == [];
    var ids := RealIds([room]);
    assert ids == if IsValid(room) == Some(true) then [room.sectorId] else [];
    assert Sum(ids) == if IsValid(room) == Some(true) then room.sectorId else 0 by {
      if ids != [] { assert ids[..0] == []; }
    }
  }

  /** "northpole" occurs in s. */
  predicate Contains(s: string, t: string)
  {
    t <= s || (s != [] && Contains(s[1..], t))
  }

  /** The room holding the North Pole objects. */
  predicate IsStorage(room: Room)
  {
    IsValid(room) == Some(true) && Contains(DecryptedName(room), "northpole")
  }

  /** Every room before k was checked without error. */
  predicate Checked(rooms: seq<Room>, k: int)
    requires k <= |rooms|
  {
    forall j :: 0 <= j < k ==> IsValid(rooms[j]).Some?
  }

  /** `part_two`: the sector id of the first storage room; None when there
      is none (ValueError) or a checksum too short is met before it
      (IndexError). */
  function PartTwo(rooms: seq<Room>): (r: Option<int>)
    ensures r.Some? ==> exists k :: 0 <= k < |rooms| && IsStorage(rooms[k]) && rooms[k].sectorId == r.value
  {
    if rooms == [] then None
    else if IsValid(rooms[0]).None? then None
    else if IsStorage(rooms[0]) then Some(rooms[0].sectorId)
    else
      assert forall k :: 0 <= k < |rooms| - 1 ==> rooms[1..][k] == rooms[k + 1];
      PartTwo(rooms[1..])
  }

  /** Dropping a checked, non-storage room from the front. */
  lemma CheckedTail(rooms: seq<Room>, k: int)
    requires 0 < k <= |rooms| && IsValid(rooms[0]).Some?
    ensures Checked(rooms, k) <==> Checked(rooms[1..], k - 1)
  {
    if Checked(rooms[1..], k - 1) {
      forall j | 0 < j < k ensures IsValid(rooms[j]).Some? {
        assert rooms[j] == rooms[1..][j - 1];
      }
    }
  }

  /** Part two answers with the sector id of a storage room reached
      without error, and of the first one. */
  lemma {:induction false} PartTwoFinds(rooms: seq<Room>) returns (k: nat)
    requires PartTwo(rooms).Some?
    ensures k < |rooms| && IsStorage(rooms[k]) && Checked(rooms, k) && rooms[k].sectorId == PartTwo(rooms).value
    ensures forall j :: 0 <= j < k ==> !IsStorage(rooms[j])
  {
    if IsStorage(rooms[0]) {
      k := 0;
    } else {
      var k' := PartTwoFinds(rooms[1..]);
      ShiftFound(rooms, k');
      k := k' + 1;
    }
  }

  /** A storage room found in the tail, behind a checked non-storage room,
      is found one further on in the whole list. */
  lemma ShiftFound(rooms: seq<Room>, k': nat)
    requires |rooms| > 0 && IsValid(rooms[0]).Some? && !IsStorage(rooms[0])
    requires k' < |rooms| - 1 && IsStorage(rooms[1..][k']) && Checked(rooms[1..], k')
    requires forall j :: 0 <= j < k' ==> !IsStorage(rooms[1..][j])
    ensures rooms[k' + 1] == rooms[1..][k'] && IsStorage(rooms[k' + 1]) && Checked(rooms, k' + 1)
    ensures forall j :: 0 <= j < k' + 1 ==> !IsStorage(rooms[j])
  {
    CheckedTail(rooms, k' + 1);
    forall j | 0 < j < k' + 1 ensures !IsStorage(rooms[j]) {
      assert rooms[j] == rooms[1..][j - 1];
    }
  }

  /** Part two fails only when no storage room is reached without error. */
  lemma {:induction false} PartTwoFails(rooms: seq<Room>, k: int)
    requires PartTwo(rooms).None? && 0 <= k < |rooms| && IsStorage(rooms[k])
    ensures !Checked(rooms, k)
  {
    if IsValid(rooms[0]).Some? {
      assert k > 0;
      PartTwoFails(rooms[1..], k - 1);
      assert rooms[k] == rooms[1..][k - 1];
      CheckedTail(rooms, k);
    }
  }
}
