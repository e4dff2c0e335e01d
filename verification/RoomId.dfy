/** `generateRoomId`: an eight-character room id drawn from lower-case
    letters and digits. The random numbers are not modelled; the caller
    supplies the eight alphabet positions that
    `Math.floor(Math.random() * characters.length)` would produce. */
module RoomId {
  /** `characters`: the 36 characters a room id is made of. */
  const Alphabet := "abcdefghijklmnopqrstuvwxyz0123456789"

  /** `length`: how many characters are drawn. */
  const RoomIdLength: nat := 8

  /** The character at position `i` of the alphabet: the 26 letters in
      order, then the 10 digits in order. */
  function AlphabetChar(i: nat): char
    requires i < 36
  {
    if i < 26 then ('a' as int + i) as char else ('0' as int + (i - 26)) as char
  }

  lemma AlphabetSpec()
    ensures |Alphabet| == 36
    ensures forall i: nat :: i < 36 ==> Alphabet[i] == AlphabetChar(i)
  {
    assert Alphabet == seq(36, i requires 0 <= i < 36 => AlphabetChar(i));
  }

  /** Eight alphabet positions, each in `[0, 36)`. */
  predicate ValidDraws(draws: seq<nat>)
  {
    |draws| == RoomIdLength && forall i :: 0 <= i < |draws| ==> draws[i] < |Alphabet|
  }

  /** The id the draws select: the `i`-th character is the alphabet
      character at the `i`-th drawn position. */
  function RoomIdOf(draws: seq<nat>): (id: string)
    requires ValidDraws(draws)
    ensures |id| == RoomIdLength
  {
    seq(RoomIdLength, i requires 0 <= i < RoomIdLength => Alphabet[draws[i]])
  }

  /** The `for` loop appending one alphabet character per draw. */
  method GenerateRoomId(draws: seq<nat>) returns (result: string)
    requires ValidDraws(draws)
    ensures result == RoomIdOf(draws)
  {
    result := "";
    for i := 0 to RoomIdLength
      invariant |result| == i
      invariant forall j :: 0 <= j < i ==> result[j] == Alphabet[draws[j]]
    {
      result := result + [Alphabet[draws[i]]];
    }
  }

  /** What a room id looks like: eight lower-case ASCII letters or digits. */
  predicate IsRoomId(s: string)
  {
    |s| == RoomIdLength && forall i :: 0 <= i < |s| ==> ('a' <= s[i] <= 'z' || '0' <= s[i] <= '9')
  }

  /** Every generated id is well formed: no upper-case letter and no
      punctuation. */
  lemma RoomIdOfIsRoomId(draws: seq<nat>)
    requires ValidDraws(draws)
    ensures IsRoomId(RoomIdOf(draws))
  {
    AlphabetSpec();
    var id := RoomIdOf(draws);
    forall i | 0 <= i < |id| ensures 'a' <= id[i] <= 'z' || '0' <= id[i] <= '9' {
      assert id[i] == AlphabetChar(draws[i]);
    }
  }

  /** The alphabet position of a letter or digit. */
  function PositionOf(c: char): (p: nat)
    requires 'a' <= c <= 'z' || '0' <= c <= '9'
    ensures p < 36 && Alphabet[p] == c
  {
    AlphabetSpec();
    if 'a' <= c <= 'z' then c as int - 'a' as int else c as int - '0' as int + 26
  }

  /** The draws that produce a given id. */
  function DrawsFor(s: string): (draws: seq<nat>)
    requires IsRoomId(s)
    ensures |draws| == |s|
  {
    seq(|s|, i requires 0 <= i < |s| => PositionOf(s[i]))
  }

  /** Every well-formed id can be generated, and from exactly one sequence
      of draws: the generator is a bijection between draws and ids. */
  lemma RoomIdBijection(s: string, draws: seq<nat>)
    requires IsRoomId(s)
    ensures ValidDraws(DrawsFor(s)) && RoomIdOf(DrawsFor(s)) == s
    ensures ValidDraws(draws) && RoomIdOf(draws) == s ==> draws == DrawsFor(s)
  {
    AlphabetSpec();
    var d := DrawsFor(s);
    assert ValidDraws(d);
    forall i | 0 <= i < |s| ensures RoomIdOf(d)[i] == s[i] {
      assert Alphabet[d[i]] == AlphabetChar(d[i]);
    }
    if ValidDraws(draws) && RoomIdOf(draws) == s {
      forall i | 0 <= i < |s| ensures draws[i] == d[i] {
        assert s[i] == Alphabet[draws[i]] == AlphabetChar(draws[i]);
      }
    }
  }
}
