/** The atom record (`struct atom`, rotate.cpp:25-34), `readatom`
    (rotate.cpp:61-71), `operator<<` (rotate.cpp:77-85) and the test that
    decides whether a structure-file line is an atom line (rotate.cpp:137).

    Column ranges are 0-based and half-open and follow the ATOM/HETATM record
    of the PDB format: serial [6,11), resSeq [22,26), x [30,38), y [38,46),
    z [46,54). `before` keeps [0,30) and `after` keeps [54,80) as raw text. */
module Record {
  import opened Wrappers
  import opened Text
  import opened IntParse

  datatype Atom = Atom(serial: int, resSeq: int, x: real, y: real, z: real,
                       before: string, after: string)

  /** The exception `std::string::substr` throws when its start lies past
      the end of the string. */
  datatype Error = OutOfRange

  const BeforeEnd: nat := 30
  const AfterStart: nat := 54
  const AfterLen: nat := 26
  const FieldWidth: nat := 8

  function Min(a: int, b: int): int {
    if a <= b then a else b
  }

  /** `s.substr(pos, n)` when it does not throw: at most `n` characters,
      fewer when the string ends first. */
  function Substr(s: string, pos: nat, n: nat): (r: string)
    requires pos <= |s|
    ensures |r| == Min(n, |s| - pos)
    ensures r == s[pos..pos + |r|]
  {
    s[pos..Min(pos + n, |s|)]
  }

  /** `readatom`. The coordinate parse (`str2double`) is a parameter: floating
      point is not modelled. The only failure is the exception that
      `substr(54, 26)` raises on a line shorter than 54 characters; every
      other field is sliced leniently. */
  function ReadAtom(line: string, str2double: string -> real): (r: Result<Atom, Error>)
    ensures r.Ok? <==> |line| >= AfterStart
    ensures r.Ok? ==> r.value.before == line[..BeforeEnd]
    ensures r.Ok? ==> r.value.after == line[AfterStart..Min(AfterStart + AfterLen, |line|)]
    ensures r.Ok? ==> r.value.serial == Str2Int(line[6..11])
    ensures r.Ok? ==> r.value.resSeq == Str2Int(line[22..26])
    ensures r.Ok? ==> r.value.x == str2double(line[30..38])
    ensures r.Ok? ==> r.value.y == str2double(line[38..46])
    ensures r.Ok? ==> r.value.z == str2double(line[46..54])
  {
    if |line| < AfterStart then Err(OutOfRange)
    else
      Ok(Atom(Str2Int(Substr(line, 6, 5)),
              Str2Int(Substr(line, 22, 4)),
              str2double(Substr(line, 30, FieldWidth)),
              str2double(Substr(line, 38, FieldWidth)),
              str2double(Substr(line, 46, FieldWidth)),
              Substr(line, 0, BeforeEnd),
              Substr(line, AfterStart, AfterLen)))
  }

  /** `os << at`: `before`, the three coordinates through the fixed-point
      formatter `fmt` (a parameter), then `after`. */
  function Encode(at: Atom, fmt: real -> string): string {
    at.before + fmt(at.x) + fmt(at.y) + fmt(at.z) + at.after
  }

  /** The classifier in the main loop: a line is an atom line when "ATOM" or
      "HETATM" occurs anywhere in it. */
  predicate IsAtomLine(line: string)
    ensures IsAtomLine(line) <==>
      exists i :: OccursAt(line, "ATOM", i) || OccursAt(line, "HETATM", i)
  {
    Find(line, "ATOM").Some? || Find(line, "HETATM").Some?
  }

  /** `fmt` writes each of these three values in exactly one 8-column field. */
  predicate FitsField(fmt: real -> string, x: real, y: real, z: real) {
    |fmt(x)| == FieldWidth && |fmt(y)| == FieldWidth && |fmt(z)| == FieldWidth
  }

  /** Reading a line and writing it back with coordinates `x`, `y`, `z`,
      for any formatter: the first 30 characters of the line, the three
      formatted values, then the line from column 54 up to column 80. */
  lemma EncodeOfRead(line: string, str2double: string -> real, fmt: real -> string,
                     x: real, y: real, z: real)
    requires |line| >= AfterStart
    ensures ReadAtom(line, str2double).Ok?
    ensures Encode(ReadAtom(line, str2double).value.(x := x, y := y, z := z), fmt)
         == line[..BeforeEnd] + fmt(x) + fmt(y) + fmt(z) + line[AfterStart..Min(AfterStart + AfterLen, |line|)]
  {
    ReadAtomFields(line, str2double);
  }

  /** Reading a line and writing it back with any coordinates: columns
      [0,30) and [54,80) come back byte for byte, the coordinates fill
      [30,54), and anything past column 80 is lost. */
  lemma EncodeKeepsColumns(line: string, str2double: string -> real, fmt: real -> string,
                           x: real, y: real, z: real)
    requires |line| >= AfterStart
    requires FitsField(fmt, x, y, z)
    ensures ReadAtom(line, str2double).Ok?
    ensures var out := Encode(ReadAtom(line, str2double).value.(x := x, y := y, z := z), fmt);
      && out == line[..BeforeEnd] + fmt(x) + fmt(y) + fmt(z) + line[AfterStart..Min(AfterStart + AfterLen, |line|)]
      && |out| == Min(80, |line|)
      && out[..30] == line[..30]
      && out[30..38] == fmt(x) && out[38..46] == fmt(y) && out[46..54] == fmt(z)
      && out[54..] == line[54..Min(80, |line|)]
  {
    ReadAtomFields(line, str2double);
    var at := ReadAtom(line, str2double).value.(x := x, y := y, z := z);
    assert at.before == line[..BeforeEnd] && at.after == line[AfterStart..Min(AfterStart + AfterLen, |line|)];
    EncodeSlices(at, fmt);
    EncodeOfRead(line, str2double, fmt, x, y, z);
  }

  /** Writing an atom and reading the line back gives the atom again, when
      its raw fields have their full widths, its serial and residue number
      agree with the text in `before`, and the coordinate parse inverts the
      formatter on its coordinates. */
  lemma ReadAtomOfEncode(at: Atom, str2double: string -> real, fmt: real -> string)
    requires |at.before| == BeforeEnd && |at.after| <= AfterLen
    requires at.serial == Str2Int(at.before[6..11])
    requires at.resSeq == Str2Int(at.before[22..26])
    requires FitsField(fmt, at.x, at.y, at.z)
    requires str2double(fmt(at.x)) == at.x
    requires str2double(fmt(at.y)) == at.y
    requires str2double(fmt(at.z)) == at.z
    ensures ReadAtom(Encode(at, fmt), str2double) == Ok(at)
  {
    var line := Encode(at, fmt);
    EncodeSlices(at, fmt);
    ReadAtomFields(line, str2double);
    var s6 := line[6..11];
    assert s6 == at.before[6..11];
    var s22 := line[22..26];
    assert s22 == at.before[22..26];
    var back := Atom(Str2Int(s6), Str2Int(s22), str2double(line[30..38]), str2double(line[38..46]),
                     str2double(line[46..54]), line[..BeforeEnd], line[AfterStart..|line|]);
    assert back.serial == at.serial;
    assert back.resSeq == at.resSeq;
    assert back.x == at.x && back.y == at.y && back.z == at.z;
    assert back.before == at.before && back.after == at.after;
  }

  /** Where each field of an atom lands in its encoded line. */
  lemma EncodeSlices(at: Atom, fmt: real -> string)
    requires |at.before| == BeforeEnd && |at.after| <= AfterLen
    requires FitsField(fmt, at.x, at.y, at.z)
    ensures var line := Encode(at, fmt);
      && |line| == AfterStart + |at.after| && Min(AfterStart + AfterLen, |line|) == |line|
      && line[..30] == at.before && line[6..11] == at.before[6..11]
      && line[22..26] == at.before[22..26]
      && line[30..38] == fmt(at.x) && line[38..46] == fmt(at.y)
      && line[46..54] == fmt(at.z) && line[54..] == at.after
  {
    var line := Encode(at, fmt);
    assert line == at.before + (fmt(at.x) + fmt(at.y) + fmt(at.z)) + at.after;
  }

  /** `readatom` of a long enough line, field by field. */
  lemma ReadAtomFields(line: string, str2double: string -> real)
    requires |line| >= AfterStart
    ensures ReadAtom(line, str2double)
      == Ok(Atom(Str2Int(line[6..11]), Str2Int(line[22..26]),
                 str2double(line[30..38]), str2double(line[38..46]), str2double(line[46..54]),
                 line[..BeforeEnd], line[AfterStart..Min(AfterStart + AfterLen, |line|)]))
  {
  }
}
