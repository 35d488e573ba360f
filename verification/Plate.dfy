/** Number plates: the normal form the service stores and the format it accepts. */
module Plate {
  import opened Model
  import opened Utf8

  const PROVINCES := "京津沪渝冀豫云辽黑湘皖鲁新苏浙赣鄂桂甘晋蒙陕吉闽贵粤川青藏琼宁"

  predicate Blank(r: Rune) { r == ' ' as int || r == '\t' as int }
  predicate LowerLetter(r: Rune) { 'a' as int <= r <= 'z' as int }
  predicate UpperLetter(r: Rune) { 'A' as int <= r <= 'Z' as int }
  predicate Digit(r: Rune) { '0' as int <= r <= '9' as int }

  function Upper(r: Rune): Rune {
    if LowerLetter(r) then r - 32 else r
  }

  /** Blanks dropped, ASCII letters in upper case. */
  function Folded(rs: seq<Rune>): seq<Rune> {
    if rs == [] then []
    else if Blank(rs[0]) then Folded(rs[1..])
    else [Upper(rs[0])] + Folded(rs[1..])
  }

  function Normalized(p: PlateText): PlateText {
    Encode(Folded(Decode(p)))
  }

  function NormalForm(r: Rune): PlateText {
    if Blank(r) then [] else EncodeRune(Upper(r))
  }

  lemma NormalizedStep(p: PlateText, r: Rune, width: nat)
    requires p != [] && DecodeRune(p) == (r, width)
    ensures Normalized(p) == NormalForm(r) + Normalized(p[width..])
  {
    var rest := Folded(Decode(p[width..]));
    assert Decode(p)[1..] == Decode(p[width..]);
    assert ([Upper(r)] + rest)[1..] == rest;
  }

  lemma LoopStep(p: PlateText, i: nat, r: Rune, width: nat, out: PlateText)
    requires i < |p| && DecodeRune(p[i..]) == (r, width)
    requires out + Normalized(p[i..]) == Normalized(p)
    ensures out + NormalForm(r) + Normalized(p[i + width..]) == Normalized(p)
  {
    hide *;
    NormalizedStep(p[i..], r, width);
    assert p[i..][width..] == p[i + width..];
  }

  /** The scanning loop: decode one rune, append its normal form to the output bytes. */
  method Normalize(p: PlateText) returns (out: PlateText)
    ensures out == Normalized(p)
  {
    hide Normalized, DecodeRune;
    out := [];
    var i := 0;
    assert p[0..] == p;
    while i < |p|
      invariant 0 <= i <= |p|
      invariant out + Normalized(p[i..]) == Normalized(p)
    {
      var (r, width) := DecodeRune(p[i..]);
      LoopStep(p, i, r, width, out);
      if LowerLetter(r) {
        out := out + [(r - 32) as byte];
      } else if Blank(r) {
      } else {
        out := out + EncodeRune(r);
      }
      i := i + width;
    }
    assert p[|p|..] == [];
    NothingLeft();
  }

  lemma NothingLeft()
    ensures Normalized([]) == []
  {
  }

  predicate Province(r: Rune) {
    exists i | 0 <= i < |PROVINCES| :: PROVINCES[i] as int == r
  }

  /** A province, a letter, then five or six letters other than I and O or digits. */
  predicate WellFormed(rs: seq<Rune>) {
    && (|rs| == 7 || |rs| == 8)
    && Province(rs[0])
    && UpperLetter(rs[1])
    && forall i | 2 <= i < |rs| :: Digit(rs[i]) || (UpperLetter(rs[i]) && rs[i] != 'I' as int && rs[i] != 'O' as int)
  }

  predicate Valid(p: PlateText) {
    WellFormed(Decode(Normalized(p)))
  }

  // ---- What normalising means

  function Stripped(rs: seq<Rune>): seq<Rune> {
    if rs == [] then []
    else if Blank(rs[0]) then Stripped(rs[1..])
    else [rs[0]] + Stripped(rs[1..])
  }

  /** Equal, or the same ASCII letter in different cases. */
  predicate SameLetter(a: Rune, b: Rune) {
    a == b || (LowerLetter(a) && b == a - 32) || (LowerLetter(b) && a == b - 32)
  }

  /** The plates agree rune by rune once blanks are dropped and letter case is ignored. */
  predicate SamePlate(p: PlateText, q: PlateText) {
    var a, b := Stripped(Decode(p)), Stripped(Decode(q));
    |a| == |b| && forall i | 0 <= i < |a| :: SameLetter(a[i], b[i])
  }

  lemma {:induction false} FoldedShape(rs: seq<Rune>)
    requires Scalars(rs)
    ensures Scalars(Folded(rs))
    ensures |Folded(rs)| == |Stripped(rs)|
    ensures forall i | 0 <= i < |Folded(rs)| :: Folded(rs)[i] == Upper(Stripped(rs)[i])
    ensures forall i | 0 <= i < |Folded(rs)| :: !Blank(Folded(rs)[i]) && !LowerLetter(Folded(rs)[i])
  {
    if rs != [] {
      FoldedShape(rs[1..]);
    }
  }

  lemma {:induction false} FoldedFixed(rs: seq<Rune>)
    requires forall i | 0 <= i < |rs| :: !Blank(rs[i]) && !LowerLetter(rs[i])
    ensures Folded(rs) == rs
  {
    if rs != [] {
      FoldedFixed(rs[1..]);
    }
  }

  lemma DecodeNormalized(p: PlateText)
    ensures Decode(Normalized(p)) == Folded(Decode(p))
  {
    FoldedShape(Decode(p));
    DecodeEncode(Folded(Decode(p)));
  }

  lemma NormalizedIdempotent(p: PlateText)
    ensures Normalized(Normalized(p)) == Normalized(p)
  {
    DecodeNormalized(p);
    FoldedShape(Decode(p));
    FoldedFixed(Folded(Decode(p)));
  }

  lemma FoldedEqualIff(a: seq<Rune>, b: seq<Rune>)
    requires Scalars(a) && Scalars(b)
    ensures Folded(a) == Folded(b)
            <==> |Stripped(a)| == |Stripped(b)| && forall i | 0 <= i < |Stripped(a)| ::
                 SameLetter(Stripped(a)[i], Stripped(b)[i])
  {
    FoldedShape(a);
    FoldedShape(b);
    hide Folded, Stripped, Blank;
    var p, q := Stripped(a), Stripped(b);
    forall i | 0 <= i < |p| && |p| == |q| ensures Folded(a)[i] == Folded(b)[i] <==> SameLetter(p[i], q[i]) {
    }
    if |p| == |q| && forall i | 0 <= i < |p| :: SameLetter(p[i], q[i]) {
      assert Folded(a) == Folded(b);
    }
  }

  lemma NormalizedEqualIff(p: PlateText, q: PlateText)
    ensures Normalized(p) == Normalized(q) <==> SamePlate(p, q)
  {
    DecodeNormalized(p);
    DecodeNormalized(q);
    FoldedEqualIff(Decode(p), Decode(q));
    hide Folded, Stripped, Decode, Encode;
  }
}
