/** The plate format as the pattern of the source reads, with a matching relation of its own. */
module PlateFormat {
  import opened Model
  import opened Utf8
  import opened Plate

  /** Regular patterns: a character class given by its ranges, one pattern after another, and bounded repetition. */
  datatype Pattern =
    | Class(ranges: seq<(Rune, Rune)>)
    | OneOf(runes: seq<Rune>)
    | Then(first: Pattern, second: Pattern)
    | Repeat(body: Pattern, min: nat, max: nat)

  ghost predicate Matches(p: Pattern, rs: seq<Rune>)
    decreases p, 0
  {
    match p
    case Class(ranges) => |rs| == 1 && InClass(ranges, rs[0])
    case OneOf(runes) => |rs| == 1 && rs[0] in runes
    case Then(a, b) => exists k :: 0 <= k <= |rs| && Matches(a, rs[..k]) && Matches(b, rs[k..])
    case Repeat(body, min, max) => exists n: nat :: min <= n <= max && Repeats(body, n, rs)
  }

  ghost predicate Repeats(p: Pattern, n: nat, rs: seq<Rune>)
    decreases p, n
  {
    if n == 0 then rs == []
    else exists k :: 0 <= k <= |rs| && Matches(p, rs[..k]) && Repeats(p, n - 1, rs[k..])
  }

  predicate InClass(ranges: seq<(Rune, Rune)>, r: Rune) {
    exists i | 0 <= i < |ranges| :: ranges[i].0 <= r <= ranges[i].1
  }

  /** The code points of the province abbreviations. */
  const PROVINCE_CODES: seq<Rune> := [
    0x4EAC, 0x6D25, 0x6CAA, 0x6E1D, 0x5180, 0x8C6B, 0x4E91, 0x8FBD,
    0x9ED1, 0x6E58, 0x7696, 0x9C81, 0x65B0, 0x82CF, 0x6D59, 0x8D63,
    0x9102, 0x6842, 0x7518, 0x664B, 0x8499, 0x9655, 0x5409, 0x95FD,
    0x8D35, 0x7CA4, 0x5DDD, 0x9752, 0x85CF, 0x743C, 0x5B81
  ]

  const LETTERS := [(0x41, 0x5A)]
  const LETTERS_AND_DIGITS := [(0x41, 0x48), (0x4A, 0x4E), (0x50, 0x5A), (0x30, 0x39)]

  /** A province, a letter, then five or six letters or digits, I and O left out. */
  const PLATE := Then(OneOf(PROVINCE_CODES), Then(Class(LETTERS), Repeat(Class(LETTERS_AND_DIGITS), 5, 6)))

  lemma {:induction false} RepeatedClass(ranges: seq<(Rune, Rune)>, n: nat, rs: seq<Rune>)
    ensures Repeats(Class(ranges), n, rs) <==> |rs| == n && forall i | 0 <= i < n :: InClass(ranges, rs[i])
    decreases n
  {
    hide InClass;
    var p := Class(ranges);
    if n > 0 && rs != [] {
      RepeatedClass(ranges, n - 1, rs[1..]);
      assert rs[..1] == [rs[0]];
      assert Matches(p, rs[..1]) <==> InClass(ranges, rs[0]);
      assert forall k | 0 <= k <= |rs| && Matches(p, rs[..k]) :: k == 1;
      assert forall i | 0 <= i < |rs| - 1 :: rs[1..][i] == rs[i + 1];
      assert forall i | 0 < i < |rs| :: rs[i] == rs[1..][i - 1];
      if |rs| == n && forall i | 0 <= i < n :: InClass(ranges, rs[i]) {
        assert Matches(p, rs[..1]) && Repeats(p, n - 1, rs[1..]);
      }
    }
  }

  lemma ProvinceCodes(r: Rune)
    ensures Province(r) <==> r in PROVINCE_CODES
  {
    assert |PROVINCES| == |PROVINCE_CODES|;
    assert forall i | 0 <= i < |PROVINCES| :: PROVINCES[i] as int == PROVINCE_CODES[i];
  }

  lemma FirstOf(p: Pattern, rs: seq<Rune>)
    requires p.Then? && (p.first.Class? || p.first.OneOf?)
    ensures p.first.Class?
            ==> (Matches(p, rs) <==> rs != [] && InClass(p.first.ranges, rs[0]) && Matches(p.second, rs[1..]))
    ensures p.first.OneOf?
            ==> (Matches(p, rs) <==> rs != [] && rs[0] in p.first.runes && Matches(p.second, rs[1..]))
  {
    hide InClass;
  }

  lemma FiveOrSix(p: Pattern, rs: seq<Rune>)
    ensures Matches(Repeat(p, 5, 6), rs) <==> Repeats(p, 5, rs) || Repeats(p, 6, rs)
  {
    hide Repeats;
  }

  lemma TailMatches(rs: seq<Rune>)
    ensures Matches(Repeat(Class(LETTERS_AND_DIGITS), 5, 6), rs)
            <==> (|rs| == 5 || |rs| == 6) && forall i | 0 <= i < |rs| :: InClass(LETTERS_AND_DIGITS, rs[i])
  {
    RepeatedClass(LETTERS_AND_DIGITS, 5, rs);
    RepeatedClass(LETTERS_AND_DIGITS, 6, rs);
    FiveOrSix(Class(LETTERS_AND_DIGITS), rs);
    hide Matches, Repeats, InClass;
  }

  lemma ClassesRead(r: Rune)
    ensures InClass(LETTERS, r) <==> UpperLetter(r)
    ensures InClass(LETTERS_AND_DIGITS, r)
            <==> Digit(r) || (UpperLetter(r) && r != 'I' as int && r != 'O' as int)
  {
    assert LETTERS[0] == (0x41, 0x5A);
    assert LETTERS_AND_DIGITS[0] == (0x41, 0x48) && LETTERS_AND_DIGITS[1] == (0x4A, 0x4E)
           && LETTERS_AND_DIGITS[2] == (0x50, 0x5A) && LETTERS_AND_DIGITS[3] == (0x30, 0x39);
  }

  lemma WellFormedMatches(rs: seq<Rune>)
    ensures WellFormed(rs) <==> Matches(PLATE, rs)
  {
    hide Matches, InClass, Province, UpperLetter, Digit;
    FirstOf(PLATE, rs);
    if rs != [] {
      FirstOf(PLATE.second, rs[1..]);
      ProvinceCodes(rs[0]);
      if |rs| > 1 {
        TailMatches(rs[2..]);
        assert rs[1..][1..] == rs[2..] && rs[1..][..1] == [rs[1]];
        ClassesRead(rs[1]);
        assert forall i | 2 <= i < |rs| :: rs[i] == rs[2..][i - 2];
        forall i | 2 <= i < |rs|
          ensures InClass(LETTERS_AND_DIGITS, rs[i])
                  <==> Digit(rs[i]) || (UpperLetter(rs[i]) && rs[i] != 'I' as int && rs[i] != 'O' as int)
        {
          ClassesRead(rs[i]);
        }
      }
    }
  }

  /**
   * For every byte string: the plate is valid exactly when its runes, blanks dropped and in upper case, match the
   * pattern.
   */
  lemma ValidMatches(p: PlateText)
    ensures Valid(p) <==> Matches(PLATE, Folded(Decode(p)))
  {
    DecodeNormalized(p);
    WellFormedMatches(Folded(Decode(p)));
  }

  /** What folding does, rune by rune: spaces and tabs go, small letters become capitals, all else stays. */
  lemma {:induction false} FoldedParts(a: seq<Rune>, b: seq<Rune>)
    ensures Folded(a + b) == Folded(a) + Folded(b)
    decreases |a|
  {
    hide Blank, Upper;
    if a == [] {
      assert a + b == b && Folded(a) + Folded(b) == Folded(b);
    } else {
      FoldedParts(a[1..], b);
      assert (a + b)[0] == a[0] && (a + b)[1..] == a[1..] + b;
      if !Blank(a[0]) {
        assert [Upper(a[0])] + (Folded(a[1..]) + Folded(b)) == ([Upper(a[0])] + Folded(a[1..])) + Folded(b);
      }
    }
  }

  lemma FoldedRune(r: Rune)
    ensures Folded([]) == []
    ensures Folded([r]) == if r == 0x20 || r == 0x09 then [] else if 0x61 <= r <= 0x7A then [r - 0x20] else [r]
  {
  }
}
