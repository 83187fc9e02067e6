/**
 Resource identifiers: the generator of random ones and the two recognisers, against the regular expressions the
 recognisers are written as. Identifiers are lower-case labels in the sense of section 2.3.1 of RFC 1035.
 */
module Identifiers {
  import opened Powers

  // ---------- Regular expressions ----------

  /** One character of a set, two in sequence, and a bounded number in a row; matched against a whole string. */
  datatype Regex =
    | Class(chars: set<char>)
    | Then(first: Regex, second: Regex)
    | Repeat(body: Regex, min: nat, max: nat)

  function Size(r: Regex): nat {
    match r
    case Class(_) => 1
    case Then(first, second) => 1 + Size(first) + Size(second)
    case Repeat(body, _, max) => 1 + Size(body) + max
  }

  function Less(n: nat): nat {
    if n == 0 then 0 else n - 1
  }

  /** The strings a regular expression matches in full. */
  ghost predicate Language(r: Regex, s: string)
    decreases Size(r)
  {
    match r
    case Class(chars) => |s| == 1 && s[0] in chars
    case Then(first, second) => exists k :: 0 <= k <= |s| && Language(first, s[..k]) && Language(second, s[k..])
    case Repeat(body, min, max) =>
      || (min == 0 && s == "")
      || (min <= max && max > 0 &&
          exists k :: 0 <= k <= |s| && Language(body, s[..k]) && Language(Repeat(body, Less(min), max - 1), s[k..]))
  }

  predicate IsLetter(c: char) {
    'a' <= c <= 'z'
  }

  predicate IsLetterOrDigit(c: char) {
    IsLetter(c) || '0' <= c <= '9'
  }

  predicate IsLabelChar(c: char) {
    IsLetterOrDigit(c) || c == '-'
  }

  const LETTERS: set<char> := set c: char | IsLetter(c)
  const ENDS: set<char> := set c: char | IsLetterOrDigit(c)
  const MIDS: set<char> := set c: char | IsLabelChar(c)

  /** `^[a-z]([a-z0-9-]{0,61}[a-z0-9])?$` */
  const RESOURCE_ID: Regex :=
    Then(Class(LETTERS), Repeat(Then(Repeat(Class(MIDS), 0, 61), Class(ENDS)), 0, 1))

  /** `^[a-z][0-9a-z-]{10}[0-9a-z]$` */
  const NANO_ID: Regex :=
    Then(Class(LETTERS), Then(Repeat(Class(MIDS), 10, 10), Class(ENDS)))

  // ---------- Recognisers ----------

  predicate AllIn(s: string, chars: set<char>) {
    forall i :: 0 <= i < |s| ==> s[i] in chars
  }

  predicate StartsMiddleEnds(s: string, starts: set<char>, mids: set<char>, ends: set<char>) {
    && |s| >= 1
    && s[0] in starts
    && AllIn(s, mids)
    && s[|s| - 1] in ends
  }

  /** A label: a letter, then letters, digits and hyphens, not ending in a hyphen. */
  predicate Label(s: string) {
    StartsMiddleEnds(s, LETTERS, MIDS, ENDS)
  }

  predicate ValidResourceID(s: string) {
    Label(s) && |s| <= 63
  }

  predicate ValidNanoID(s: string) {
    Label(s) && |s| == 12
  }

  lemma {:induction false} RepeatOfClass(chars: set<char>, min: nat, max: nat, s: string)
    ensures Language(Repeat(Class(chars), min, max), s) <==> min <= |s| <= max && AllIn(s, chars)
    decreases max
  {
    var body := Class(chars);
    if max > 0 && min <= max {
      if Language(Repeat(body, min, max), s) && s != "" {
        var k :| 0 <= k <= |s| && Language(body, s[..k]) && Language(Repeat(body, Less(min), max - 1), s[k..]);
        RepeatOfClass(chars, Less(min), max - 1, s[k..]);
        FirstAndRest(s, chars);
      }
      if min <= |s| <= max && AllIn(s, chars) && s != "" {
        RepeatOfClass(chars, Less(min), max - 1, s[1..]);
        assert Language(body, s[..1]);
      }
    }
  }

  lemma FirstAndRest(s: string, chars: set<char>)
    requires s != ""
    ensures AllIn(s, chars) <==> s[..1][0] in chars && AllIn(s[1..], chars)
  {
    assert forall i :: 1 <= i < |s| ==> s[i] == s[1..][i - 1];
  }

  /** Some characters of one kind, between two counts, and one last of another. */
  lemma RepeatThenClass(chars: set<char>, min: nat, max: nat, last: set<char>, s: string)
    ensures Language(Then(Repeat(Class(chars), min, max), Class(last)), s) <==>
            min + 1 <= |s| <= max + 1 && AllIn(s[..|s| - 1], chars) && s[|s| - 1] in last
  {
    if Language(Then(Repeat(Class(chars), min, max), Class(last)), s) {
      var k :| 0 <= k <= |s| && Language(Repeat(Class(chars), min, max), s[..k]) && Language(Class(last), s[k..]);
      RepeatOfClass(chars, min, max, s[..k]);
      assert k == |s| - 1;
    }
    if min + 1 <= |s| <= max + 1 && AllIn(s[..|s| - 1], chars) && s[|s| - 1] in last {
      RepeatOfClass(chars, min, max, s[..|s| - 1]);
      assert Language(Class(last), s[|s| - 1..]);
    }
  }

  lemma ClassThen(chars: set<char>, rest: Regex, s: string)
    ensures Language(Then(Class(chars), rest), s) <==> |s| >= 1 && s[0] in chars && Language(rest, s[1..])
  {
    if Language(Then(Class(chars), rest), s) {
      var k :| 0 <= k <= |s| && Language(Class(chars), s[..k]) && Language(rest, s[k..]);
      assert s[..k][0] == s[0];
    }
    if |s| >= 1 && s[0] in chars && Language(rest, s[1..]) {
      assert Language(Class(chars), s[..1]);
    }
  }

  lemma Optional(body: Regex, s: string)
    ensures Language(Repeat(body, 0, 1), s) <==> s == "" || Language(body, s)
  {
    assert Language(Repeat(body, 0, 0), "");
    if Language(Repeat(body, 0, 1), s) && s != "" {
      var k :| 0 <= k <= |s| && Language(body, s[..k]) && Language(Repeat(body, 0, 0), s[k..]);
      assert s[..k] == s;
    }
    if Language(body, s) {
      assert s[..|s|] == s && s[|s|..] == "";
    }
  }

  lemma ClassesNest()
    ensures LETTERS <= ENDS <= MIDS
  {}

  /** A first character followed by nothing, or by characters of which the last is special. */
  lemma TailOfLabel(s: string, starts: set<char>, mids: set<char>, ends: set<char>)
    requires |s| >= 1 && starts <= ends <= mids
    ensures StartsMiddleEnds(s, starts, mids, ends) <==>
            s[0] in starts && (|s| == 1 || (AllIn(s[1..][..|s| - 2], mids) && s[|s| - 1] in ends))
  {
    if |s| >= 2 {
      var inner := s[1..][..|s| - 2];
      assert forall i :: 0 <= i < |inner| ==> inner[i] == s[i + 1];
      if s[0] in starts && AllIn(inner, mids) && s[|s| - 1] in ends {
        forall i | 0 <= i < |s| ensures s[i] in mids {
          if 1 <= i < |s| - 1 {
            assert inner[i - 1] in mids;
          }
        }
      }
    }
  }

  lemma OptionalTailLanguage(s: string, starts: set<char>, mids: set<char>, ends: set<char>, max: nat)
    requires starts <= ends <= mids
    ensures Language(Then(Class(starts), Repeat(Then(Repeat(Class(mids), 0, max), Class(ends)), 0, 1)), s) <==>
            StartsMiddleEnds(s, starts, mids, ends) && |s| <= max + 2
  {
    hide Language, AllIn, StartsMiddleEnds;
    var tail := Then(Repeat(Class(mids), 0, max), Class(ends));
    ClassThen(starts, Repeat(tail, 0, 1), s);
    if |s| >= 1 {
      Optional(tail, s[1..]);
      RepeatThenClass(mids, 0, max, ends, s[1..]);
      TailOfLabel(s, starts, mids, ends);
    } else {
      NoEmptyLabel(starts, mids, ends);
    }
  }

  lemma NoEmptyLabel(starts: set<char>, mids: set<char>, ends: set<char>)
    ensures !StartsMiddleEnds("", starts, mids, ends)
  {}

  lemma TailLanguage(s: string, starts: set<char>, mids: set<char>, ends: set<char>, n: nat)
    requires starts <= ends <= mids
    ensures Language(Then(Class(starts), Then(Repeat(Class(mids), n, n), Class(ends))), s) <==>
            StartsMiddleEnds(s, starts, mids, ends) && |s| == n + 2
  {
    hide Language, AllIn, StartsMiddleEnds;
    var tail := Then(Repeat(Class(mids), n, n), Class(ends));
    ClassThen(starts, tail, s);
    if |s| >= 1 {
      RepeatThenClass(mids, n, n, ends, s[1..]);
      TailOfLabel(s, starts, mids, ends);
    }
  }

  /** The resource recogniser accepts exactly the language of its regular expression. */
  lemma ResourceIdLanguage(s: string)
    ensures ValidResourceID(s) <==> Language(RESOURCE_ID, s)
  {
    hide Language, StartsMiddleEnds;
    ClassesNest();
    OptionalTailLanguage(s, LETTERS, MIDS, ENDS, 61);
  }

  /** The nano recogniser accepts exactly the language of its regular expression. */
  lemma NanoIdLanguage(s: string)
    ensures ValidNanoID(s) <==> Language(NANO_ID, s)
  {
    hide Language, StartsMiddleEnds;
    ClassesNest();
    TailLanguage(s, LETTERS, MIDS, ENDS, 10);
  }

  /** A resource identifier is a lower-case label of at most 63 characters. */
  lemma ValidResourceIDExactlyWhen(s: string)
    ensures ValidResourceID(s) <==>
            && 1 <= |s| <= 63
            && 'a' <= s[0] <= 'z'
            && (forall i :: 0 <= i < |s| ==> 'a' <= s[i] <= 'z' || '0' <= s[i] <= '9' || s[i] == '-')
            && s[|s| - 1] != '-'
  {}

  /** A nano identifier is one of twelve characters. */
  lemma ValidNanoIDExactlyWhen(s: string)
    ensures ValidNanoID(s) <==>
            && |s| == 12
            && 'a' <= s[0] <= 'z'
            && (forall i :: 0 <= i < |s| ==> 'a' <= s[i] <= 'z' || '0' <= s[i] <= '9' || s[i] == '-')
            && s[|s| - 1] != '-'
  {}

  // ---------- The generator ----------

  const LETTER_SEQ: string := "abcdefghijklmnopqrstuvwxyz"
  const MID_SEQ: string := "-0123456789abcdefghijklmnopqrstuvwxyz"
  const END_SEQ: string := "0123456789abcdefghijklmnopqrstuvwxyz"

  lemma LetterAlphabet(c: char)
    ensures c in LETTER_SEQ <==> IsLetter(c)
  {
    if IsLetter(c) {
      var k := c as int - 'a' as int;
      assert LETTER_SEQ[k] == c;
    }
  }

  lemma DigitAlphabet(c: char)
    ensures c in "0123456789" <==> '0' <= c <= '9'
  {
    if '0' <= c <= '9' {
      assert "0123456789"[c as int - '0' as int] == c;
    }
  }

  lemma EndSeqIs()
    ensures END_SEQ == "0123456789" + LETTER_SEQ
  {}

  lemma MidSeqIs()
    ensures MID_SEQ == "-" + END_SEQ
  {}

  lemma InEither(c: char, s: string, first: string, second: string)
    requires s == first + second
    ensures c in s <==> c in first || c in second
  {}

  lemma EndAlphabet(c: char)
    ensures c in END_SEQ <==> IsLetterOrDigit(c)
  {
    EndSeqIs();
    InEither(c, END_SEQ, "0123456789", LETTER_SEQ);
    DigitAlphabet(c);
    LetterAlphabet(c);
  }

  lemma MidAlphabet(c: char)
    ensures c in MID_SEQ <==> IsLabelChar(c)
  {
    MidSeqIs();
    InEither(c, MID_SEQ, "-", END_SEQ);
    EndAlphabet(c);
    hide IsLetterOrDigit;
    assert c in "-" <==> c == '-';
  }

  /** The three alphabets are the character classes of the recognisers. */
  lemma AlphabetsAreClasses(c: char)
    ensures c in LETTER_SEQ <==> c in LETTERS
    ensures c in END_SEQ <==> c in ENDS
    ensures c in MID_SEQ <==> c in MIDS
  {
    hide *;
    LetterAlphabet(c);
    EndAlphabet(c);
    MidAlphabet(c);
    ClassMembers(c);
  }

  lemma ClassMembers(c: char)
    ensures c in LETTERS <==> IsLetter(c)
    ensures c in ENDS <==> IsLetterOrDigit(c)
    ensures c in MIDS <==> IsLabelChar(c)
  {}

  newtype byte = b: int | 0 <= b < 256

  /** Four bytes, least significant first. */
  function LittleEndian(b: seq<byte>): (n: nat)
    requires |b| == 4
    ensures n < 0x1_0000_0000
  {
    b[0] as int + 0x100 * b[1] as int + 0x1_0000 * b[2] as int + 0x100_0000 * b[3] as int
  }

  function Encode(n: nat): (b: seq<byte>)
    requires n < 0x1_0000_0000
    ensures |b| == 4
  {
    var n1 := n / 256;
    var n2 := n1 / 256;
    [(n % 256) as byte, (n1 % 256) as byte, (n2 % 256) as byte, (n2 / 256) as byte]
  }

  lemma DecodeEncode(n: nat)
    requires n < 0x1_0000_0000
    ensures LittleEndian(Encode(n)) == n
  {}

  lemma EncodeDecode(b: seq<byte>)
    requires |b| == 4
    ensures Encode(LittleEndian(b)) == b
  {
    var n := LittleEndian(b);
    var n1 := n / 256;
    assert n1 == b[1] as int + 0x100 * b[2] as int + 0x1_0000 * b[3] as int;
    assert n1 / 256 == b[2] as int + 0x100 * b[3] as int;
  }

  /** The alphabet of a position; a single position uses the alphabet of the end. */
  function Alphabet(i: nat, size: nat): (a: string)
    requires i < size
    ensures |a| > 0
  {
    if i == size - 1 then END_SEQ else if i == 0 then LETTER_SEQ else MID_SEQ
  }

  /** The symbol that a 32-bit word gives at a position. */
  function SymbolOf(n: nat, i: nat, size: nat): char
    requires i < size
  {
    Alphabet(i, size)[n % |Alphabet(i, size)|]
  }

  function Symbol(b: seq<byte>, i: nat, size: nat): char
    requires i < size && |b| == 4 * size
  {
    SymbolOf(LittleEndian(b[4 * i..4 * i + 4]), i, size)
  }

  /** The identifier made from random bytes. */
  function NanoIdOf(size: nat, b: seq<byte>): (id: string)
    requires |b| == 4 * size
    ensures |id| == size
  {
    seq(size, i requires 0 <= i < size => Symbol(b, i, size))
  }

  lemma SymbolIsIn(b: seq<byte>, i: nat, size: nat, alphabet: string)
    requires i < size && |b| == 4 * size && alphabet == Alphabet(i, size)
    ensures Symbol(b, i, size) == alphabet[LittleEndian(b[4 * i..4 * i + 4]) % |alphabet|]
  {}

  method NewNanoID(size: nat, b: seq<byte>) returns (id: string)
    requires |b| == 4 * size
    ensures id == NanoIdOf(size, b)
    ensures size == 12 ==> ValidNanoID(id)
    ensures 2 <= size <= 63 ==> ValidResourceID(id)
  {
    hide Label, Symbol, LittleEndian;
    var runes := new char[size];
    for i := 0 to size
      invariant forall j :: 0 <= j < i ==> runes[j] == Symbol(b, j, size)
    {
      var alphabet := LETTER_SEQ;
      if 0 < i && i < size - 1 {
        alphabet := MID_SEQ;
      } else if i == size - 1 {
        alphabet := END_SEQ;
      }
      SymbolIsIn(b, i, size, alphabet);
      var n := LittleEndian(b[4 * i..4 * i + 4]);
      runes[i] := alphabet[n % |alphabet|];
    }
    id := runes[..];
    if size >= 2 {
      NanoIdIsLabel(size, b);
    }
  }

  lemma SymbolInAlphabet(b: seq<byte>, i: nat, size: nat)
    requires i < size && |b| == 4 * size
    ensures Symbol(b, i, size) in Alphabet(i, size)
  {}

  /** The character class of a position. */
  function ClassAt(i: nat, size: nat): set<char>
    requires i < size
  {
    if i == size - 1 then ENDS else if i == 0 then LETTERS else MIDS
  }

  lemma AlphabetIsClass(c: char, i: nat, size: nat)
    requires i < size
    ensures c in Alphabet(i, size) <==> c in ClassAt(i, size)
  {
    AlphabetsAreClasses(c);
    hide IsLetter, IsLetterOrDigit, IsLabelChar;
  }

  /** Whatever the bytes, an identifier of two or more characters is a label. */
  lemma NanoIdIsLabel(size: nat, b: seq<byte>)
    requires size >= 2 && |b| == 4 * size
    ensures Label(NanoIdOf(size, b))
  {
    ClassesNest();
    hide Symbol, Alphabet, IsLetter, IsLetterOrDigit, IsLabelChar;
    var id := NanoIdOf(size, b);
    forall i | 0 <= i < size ensures id[i] in ClassAt(i, size) {
      SymbolInAlphabet(b, i, size);
      AlphabetIsClass(id[i], i, size);
    }
    assert id[0] in ClassAt(0, size) && id[size - 1] in ClassAt(size - 1, size);
    assert forall i :: 0 <= i < size ==> ClassAt(i, size) <= MIDS;
  }

  /** An identifier of one character is taken from the alphabet of the end, so it can be a digit. */
  lemma SingleDigit(zeros: seq<byte>)
    requires zeros == seq(4, i => 0)
    ensures !Label(NanoIdOf(1, zeros))
  {
    assert zeros[0..4] == [0, 0, 0, 0];
    assert NanoIdOf(1, zeros)[0] == '0';
    hide AllIn;
  }

  /** Generated identifiers are valid resource identifiers, whatever the bytes, exactly for sizes 2 to 63. */
  lemma GeneratedIdsAreValidExactlyFor(size: nat)
    ensures (forall b: seq<byte> :: |b| == 4 * size ==> ValidResourceID(NanoIdOf(size, b))) <==> 2 <= size <= 63
  {
    if 2 <= size <= 63 {
      forall b: seq<byte> | |b| == 4 * size ensures ValidResourceID(NanoIdOf(size, b)) {
        NanoIdIsLabel(size, b);
      }
    } else {
      var zeros: seq<byte> := seq(4 * size, i => 0);
      var id := NanoIdOf(size, zeros);
      if size == 1 {
        SingleDigit(zeros);
      }
      assert !ValidResourceID(id);
    }
  }

  /** Every string the regular expression describes is generated from some bytes, and nothing else is. */
  lemma GeneratedExactlyTheLanguage(s: string)
    ensures (exists b: seq<byte> :: |b| == 48 && NanoIdOf(12, b) == s) <==> Language(NANO_ID, s)
  {
    NanoIdLanguage(s);
    if Language(NANO_ID, s) {
      var b := BytesFor(s, 12);
      BytesForGenerates(s, 12);
      assert |b| == 48 && NanoIdOf(12, b) == s;
    }
    if b: seq<byte> :| |b| == 48 && NanoIdOf(12, b) == s {
      NanoIdIsLabel(12, b);
    }
  }

  /** The position of a character in an alphabet that has it. */
  function IndexIn(c: char, alphabet: string): (k: nat)
    requires c in alphabet
    ensures k < |alphabet| && alphabet[k] == c
  {
    if alphabet[0] == c then 0 else 1 + IndexIn(c, alphabet[1..])
  }

  predicate Spellable(s: string, size: nat) {
    |s| == size && forall i :: 0 <= i < size ==> s[i] in Alphabet(i, size)
  }

  lemma LabelsAreSpellable(s: string)
    requires Label(s) && |s| >= 2
    ensures Spellable(s, |s|)
  {
    forall i | 0 <= i < |s| ensures s[i] in Alphabet(i, |s|) {
      SpellableAt(s[i], i, |s|);
    }
  }

  lemma SpellableAt(c: char, i: nat, size: nat)
    requires i < size && size >= 2
    requires c in ClassAt(i, size)
    ensures c in Alphabet(i, size)
  {
    AlphabetIsClass(c, i, size);
  }

  /** Bytes that generate a given string. */
  function BytesUpTo(s: string, size: nat, n: nat): (b: seq<byte>)
    requires Spellable(s, size) && n <= size
    ensures |b| == 4 * n
  {
    if n == 0 then [] else BytesUpTo(s, size, n - 1) + Encode(IndexIn(s[n - 1], Alphabet(n - 1, size)))
  }

  function BytesFor(s: string, size: nat): (b: seq<byte>)
    requires Label(s) && |s| == size >= 2
    ensures |b| == 4 * size
  {
    LabelsAreSpellable(s);
    BytesUpTo(s, size, size)
  }

  lemma {:induction false} BytesUpToAt(s: string, size: nat, n: nat, i: nat)
    requires Spellable(s, size) && n <= size && i < n
    ensures BytesUpTo(s, size, n)[4 * i..4 * i + 4] == Encode(IndexIn(s[i], Alphabet(i, size)))
  {
    hide Encode, IndexIn, Alphabet;
    var front := BytesUpTo(s, size, n - 1);
    if i < n - 1 {
      BytesUpToAt(s, size, n - 1, i);
      assert BytesUpTo(s, size, n)[4 * i..4 * i + 4] == front[4 * i..4 * i + 4];
    }
  }

  lemma ShortAlphabet(i: nat, size: nat)
    requires i < size
    ensures |Alphabet(i, size)| <= 37
  {}

  lemma SmallRemainder(k: nat, m: nat)
    requires k < m
    ensures k % m == k
  {}

  lemma BytesForGenerates(s: string, size: nat)
    requires Label(s) && |s| == size >= 2
    ensures NanoIdOf(size, BytesFor(s, size)) == s
  {
    LabelsAreSpellable(s);
    hide Encode, LittleEndian, IndexIn, Alphabet, BytesUpTo, Label;
    var b := BytesFor(s, size);
    forall i | 0 <= i < size ensures Symbol(b, i, size) == s[i] {
      BytesUpToAt(s, size, size, i);
      DecodeEncode(IndexIn(s[i], Alphabet(i, size)));
      ShortAlphabet(i, size);
      SmallRemainder(IndexIn(s[i], Alphabet(i, size)), |Alphabet(i, size)|);
    }
  }

  // ---------- How evenly symbols are drawn ----------

  /** The numbers below `n` that leave remainder `k` on division by `m`. */
  function Residues(n: nat, m: nat, k: nat): (s: set<int>)
    requires k < m
    ensures forall x :: x in s <==> 0 <= x < n && x % m == k
  {
    if n == 0 then {} else Residues(n - 1, m, k) + if (n - 1) % m == k then {n - 1} else {}
  }

  /** `n` draws spread over `m` remainders, the first ones getting one more. */
  function Share(n: nat, m: nat, k: nat): nat
    requires m > 0
  {
    n / m + if k < n % m then 1 else 0
  }

  lemma ShareStep(n: nat, m: nat, k: nat)
    requires k < m
    ensures Share(n + 1, m, k) == Share(n, m, k) + if n % m == k then 1 else 0
  {
    DivStep(n, m);
  }

  /** Each remainder is hit by the same number of draws, up to one. */
  lemma {:induction false} DrawsPerSymbol(n: nat, m: nat, k: nat)
    requires k < m
    ensures |Residues(n, m, k)| == Share(n, m, k)
  {
    if n > 0 {
      DrawsPerSymbol(n - 1, m, k);
      ShareStep(n - 1, m, k);
      hide Share;
      assert n - 1 !in Residues(n - 1, m, k);
    }
  }

  lemma DivStep(n: nat, m: nat)
    requires m > 0
    ensures (n + 1) / m == n / m + if n % m == m - 1 then 1 else 0
    ensures (n + 1) % m == if n % m == m - 1 then 0 else n % m + 1
  {
    var q, r := n / m, n % m;
    assert n == q * m + r;
    if r == m - 1 {
      assert n + 1 == (q + 1) * m;
      DivUnique(n + 1, m, q + 1, 0);
    } else {
      DivUnique(n + 1, m, q, r + 1);
    }
  }

  lemma DivUnique(n: nat, m: nat, q: int, r: nat)
    requires r < m && n == q * m + r
    ensures n / m == q && n % m == r
  {
    var d := n / m - q;
    assert n == (n / m) * m + n % m;
    assert d * m == r - n % m by {
      assert (n / m - q) * m == (n / m) * m - q * m;
    }
    if d >= 1 {
      MulMono(1, d, m);
    } else if d <= -1 {
      MulMono(d, -1, m);
    }
  }

  lemma {:induction false} Increases(s: string, j: nat, k: nat)
    requires j < k < |s| && forall n :: 0 <= n < |s| - 1 ==> s[n] < s[n + 1]
    ensures s[j] < s[k]
  {
    if j + 1 < k {
      Increases(s, j, k - 1);
    }
    assert s[k - 1] < s[k - 1 + 1];
  }

  lemma LettersIncrease()
    ensures forall n :: 0 <= n < |LETTER_SEQ| - 1 ==> LETTER_SEQ[n] < LETTER_SEQ[n + 1]
  {}

  lemma EndsIncrease()
    ensures forall n :: 0 <= n < |END_SEQ| - 1 ==> END_SEQ[n] < END_SEQ[n + 1]
  {}

  lemma MidsIncrease()
    ensures forall n :: 0 <= n < |MID_SEQ| - 1 ==> MID_SEQ[n] < MID_SEQ[n + 1]
  {}

  /** No alphabet has a character twice. */
  lemma AlphabetsAreDistinct(i: nat, size: nat, j: nat, k: nat)
    requires i < size && j < k < |Alphabet(i, size)|
    ensures Alphabet(i, size)[j] != Alphabet(i, size)[k]
  {
    LettersIncrease();
    EndsIncrease();
    MidsIncrease();
    Increases(Alphabet(i, size), j, k);
  }

  /** The 32-bit words that give a character at a position. */
  ghost function Draws(i: nat, size: nat, c: char): set<int>
    requires i < size
  {
    set n | 0 <= n < 0x1_0000_0000 && SymbolOf(n, i, size) == c
  }

  lemma DrawsAreResidues(i: nat, size: nat, c: char)
    requires i < size && c in Alphabet(i, size)
    ensures Draws(i, size, c) == Residues(0x1_0000_0000, |Alphabet(i, size)|, IndexIn(c, Alphabet(i, size)))
  {
    var alphabet := Alphabet(i, size);
    var m, k := |alphabet|, IndexIn(c, alphabet);
    forall n: nat ensures SymbolOf(n, i, size) == c <==> n % m == k {
      var r := n % m;
      if r < k {
        AlphabetsAreDistinct(i, size, r, k);
      } else if k < r {
        AlphabetsAreDistinct(i, size, k, r);
      }
    }
    hide Alphabet, SymbolOf, IndexIn;
  }

  /**
   At every position each character of the alphabet is given by 2^32 / length of the 32-bit words, rounded down or up,
   and no other character by any.
   */
  lemma SymbolIsNearlyUniform(i: nat, size: nat, c: char)
    requires i < size
    ensures var m, draws := |Alphabet(i, size)|, |Draws(i, size, c)|;
            if c in Alphabet(i, size) then draws == 0x1_0000_0000 / m || draws == 0x1_0000_0000 / m + 1
            else draws == 0
  {
    if c in Alphabet(i, size) {
      DrawsAreResidues(i, size, c);
      DrawsPerSymbol(0x1_0000_0000, |Alphabet(i, size)|, IndexIn(c, Alphabet(i, size)));
    } else {
      assert Draws(i, size, c) == {};
    }
  }
}
