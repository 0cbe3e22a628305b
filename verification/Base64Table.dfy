/** The decode table of src/base64.c, built from the alphabet, and what it makes of each character. */
module Base64Table {
  import opened Common
  import opened Base64

  /** Line 18, RFC 4648 table 1. */
  const LETTERS: string := "ABCDEFGHIJKLM" + "NOPQRSTUVWXYZ" + "abcdefghijklm" + "nopqrstuvwxyz" + "0123456789" + "+/"

  /** The cell of a character that is skipped. */
  const SKIP: nat := 0x80

  function CellOf(c: char): (v: nat)
    ensures v == SKIP || v < 64
  {
    match SextetOf(c)
    case Some(v) => v
    case None => SKIP
  }

  predicate Ascending(first: char, s: string) {
    forall i :: 0 <= i < |s| ==> s[i] as int == first as int + i
  }

  lemma LetterRuns()
    ensures Ascending('A', "ABCDEFGHIJKLM") && Ascending('N', "NOPQRSTUVWXYZ")
    ensures Ascending('a', "abcdefghijklm") && Ascending('n', "nopqrstuvwxyz") && Ascending('0', "0123456789")
  {
  }

  lemma LetterAt(i: nat)
    requires i < 64
    ensures |LETTERS| == 64 && LETTERS[i] as int < 256 && LETTERS[i] == LetterOf(i)
  {
    LetterRuns();
  }

  /** No character stands for two letters. */
  lemma SameSextetSameLetter(c: char, i: nat)
    requires c != '=' && SextetOf(c) == Some(i)
    ensures i < 64 && c == LetterOf(i)
  {
  }

  /** base64_init_table */
  method InitTable() returns (cells: seq<nat>)
    ensures |cells| == 256 && forall c: char :: c as int < 256 ==> cells[c as int] == CellOf(c)
  {
    var table := new nat[256];
    var i := 0;
    while i < 256
      invariant 0 <= i <= 256
      invariant forall k :: 0 <= k < i ==> table[k] == SKIP
    {
      table[i] := SKIP;
      i := i + 1;
    }
    hide SextetOf, LETTERS;
    i := 0;
    while i < 64
      invariant 0 <= i <= 64
      invariant forall c: char :: c as int < 256 && c != '=' ==>
        table[c as int] == if CellOf(c) < i then CellOf(c) else SKIP
    {
      LetterAt(i);
      var letter := LETTERS[i];
      forall c: char | c != '=' && CellOf(c) == i ensures c == letter {
        SameSextetSameLetter(c, i);
      }
      table[letter as int] := i;
      i := i + 1;
    }
    table['=' as int] := 0;
    EqualsIsZero();
    cells := table[..];
  }

  lemma EqualsIsZero()
    ensures CellOf('=') == 0
  {
  }

  // ---- What each character is read as ----

  /** Each letter is read as its index in the alphabet, and '=' as zero; no other character is read. */
  lemma ReadAsIndex(c: char)
    ensures |LETTERS| == 64
    ensures forall i :: 0 <= i < 64 && LETTERS[i] == c ==> Sextets([c]) == [i]
    ensures c == '=' ==> Sextets([c]) == [0]
    ensures c !in LETTERS && c != '=' ==> Sextets([c]) == []
  {
    OneCharacter(c);
    LetterAt(0);
    hide SextetOf, LETTERS, Sextets;
    forall i | 0 <= i < 64 && LETTERS[i] == c ensures SextetOf(c) == Some(i) {
      LetterAt(i);
    }
    if c != '=' && SextetOf(c).Some? {
      SameSextetSameLetter(c, SextetOf(c).value);
      LetterAt(SextetOf(c).value);
    }
    ReadEquals();
  }

  lemma ReadEquals()
    ensures SextetOf('=') == Some(0)
  {
  }

  lemma OneCharacter(c: char)
    ensures Sextets([c]) == match SextetOf(c) case Some(v) => [v] case None => []
  {
    assert [c][..0] == "";
  }

  /** RFC 4648 table 1 by ranges of character codes. */
  lemma ReadByRange(c: char)
    ensures 'A' <= c <= 'Z' ==> Sextets([c]) == [c as int - 65]
    ensures 'a' <= c <= 'z' ==> Sextets([c]) == [c as int - 71]
    ensures '0' <= c <= '9' ==> Sextets([c]) == [c as int + 4]
    ensures c == '+' ==> Sextets([c]) == [62]
    ensures c == '/' ==> Sextets([c]) == [63]
    ensures Sextets([c]) == [] <==>
      !('A' <= c <= 'Z' || 'a' <= c <= 'z' || '0' <= c <= '9' || c == '+' || c == '/' || c == '=')
  {
    OneCharacter(c);
  }

  /** Decoding does not see the characters that are not read. */
  lemma DecodeSkips(s: string, c: char, t: string)
    requires c !in LETTERS && c != '='
    ensures Unpack(Sextets(s + [c] + t)) == Unpack(Sextets(s + t))
  {
    ReadAsIndex(c);
    hide *;
    SextetsConcat(s + [c], t);
    SextetsConcat(s, [c]);
    SextetsConcat(s, t);
    assert Sextets(s) + [] == Sextets(s);
  }
}
