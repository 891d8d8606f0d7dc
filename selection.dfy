/** The selection list: `struct residue` (rotate.cpp:36-40), `split`
    (rotate.cpp:91-104) and the loop in `main` that loads the groups
    (rotate.cpp:119-130). Both loops grow a vector by doubling it when it is
    full and trim it to the number of elements written at the end; the
    vector is an array here and `resize` is `Resize`. */
module Selection {
  import opened Text
  import opened IntParse
  import opened Record

  /** `residue`: the member atoms, the angle in radians, the axis character. */
  datatype Group = Group(atoms: seq<Atom>, theta: real, axis: char)

  /** A directive of the selection file as the loader reads it: a member
      line, then an axis character and an angle in degrees. */
  datatype Directive = Directive(memberLine: string, axis: char, degrees: real)

  /** The atom `split` stores for a token. Only `serial` is set; the other
      fields stay as a default-constructed `atom` has them and are never
      read, since members are compared by serial alone. */
  function Selector(serial: int): Atom {
    Atom(serial, 0, 0.0, 0.0, 0.0, [], [])
  }

  /** What `split` returns for a line: one selector per token, in order. */
  function Selectors(toks: seq<string>): seq<Atom> {
    seq(|toks|, k requires 0 <= k < |toks| => Selector(Str2Int(toks[k])))
  }

  /** Degrees to radians with the program's constant for pi. */
  function Radians(degrees: real): real {
    degrees * (3.141592 / 180.0)
  }

  /** The conversion is linear: 180 degrees is the program's pi, 0 degrees
      is 0, and the opposite angle in degrees gives the opposite angle in
      radians, so directives of `d` and `-d` degrees give opposite groups. */
  lemma RadiansScale(d: real, e: real)
    ensures Radians(180.0) == 3.141592 && Radians(0.0) == 0.0
    ensures Radians(-d) == -Radians(d)
    ensures Radians(d + e) == Radians(d) + Radians(e)
  {
  }

  /** `v.resize(n)`: a buffer of `n` elements that starts with the old
      elements that fit. */
  method Resize<T(0)>(a: array<T>, n: nat) returns (b: array<T>)
    ensures fresh(b) && b.Length == n
    ensures forall k :: 0 <= k < n && k < a.Length ==> b[k] == a[k]
  {
    b := new T[n];
    var k := 0;
    while k < n && k < a.Length
      invariant 0 <= k <= n && k <= a.Length
      invariant forall m :: 0 <= m < k ==> b[m] == a[m]
    {
      b[k] := a[k];
      k := k + 1;
    }
  }

  /** `split`: one selector per whitespace-separated token of `line`, in
      order, holding `str2int` of the token; a blank line gives none. */
  method Split(line: string) returns (atoms: seq<Atom>)
    ensures |atoms| == |Tokens(line)|
    ensures forall k :: 0 <= k < |atoms| ==> atoms[k] == Selector(Str2Int(Tokens(line)[k]))
  {
    var toks := Tokens(line);
    var ret := new Atom[1];
    var i := 0;
    while i < |toks|
      invariant 0 <= i <= |toks|
      invariant fresh(ret) && i < ret.Length
      invariant forall k :: 0 <= k < i ==> ret[k] == Selector(Str2Int(toks[k]))
    {
      ret[i] := Selector(Str2Int(toks[i]));
      i := i + 1;
      if i == ret.Length {
        ret := Resize(ret, 2 * i);
      }
    }
    ret := Resize(ret, i);
    atoms := ret[..];
  }

  /** The loader: one group per directive, in file order, with the member
      line split into selectors and the angle converted to radians. */
  method LoadGroups(directives: seq<Directive>) returns (groups: seq<Group>)
    ensures |groups| == |directives|
    ensures forall k :: 0 <= k < |groups| ==>
      var d := directives[k];
      groups[k] == Group(Selectors(Tokens(d.memberLine)), Radians(d.degrees), d.axis)
  {
    var movelist := new Group[1];
    var which := 0;
    while which < |directives|
      invariant 0 <= which <= |directives|
      invariant fresh(movelist) && which < movelist.Length
      invariant forall k :: 0 <= k < which ==>
        var d := directives[k];
        movelist[k] == Group(Selectors(Tokens(d.memberLine)), Radians(d.degrees), d.axis)
    {
      var d := directives[which];
      var atoms := Split(d.memberLine);
      assert atoms == Selectors(Tokens(d.memberLine));
      movelist[which] := Group(atoms, d.degrees * (3.141592 / 180.0), d.axis);
      which := which + 1;
      if movelist.Length == which {
        movelist := Resize(movelist, 2 * which);
      }
    }
    movelist := Resize(movelist, which);
    groups := movelist[..];
  }

  /** The text of a member line listing `serials`, separated by blanks. */
  function SerialLine(serials: seq<int>): string {
    Join(seq(|serials|, k requires 0 <= k < |serials| => Decimal(serials[k])))
  }

  /** Splitting the text of a list of `int` serials gives back one selector
      per serial, in order, duplicates included. */
  lemma SelectorsOfSerialLine(serials: seq<int>)
    requires forall k :: 0 <= k < |serials| ==> IntMin <= serials[k] <= IntMax
    ensures Selectors(Tokens(SerialLine(serials)))
         == seq(|serials|, k requires 0 <= k < |serials| => Selector(serials[k]))
  {
    var texts := seq(|serials|, k requires 0 <= k < |serials| => Decimal(serials[k]));
    TokensOfJoin(texts);
    forall k | 0 <= k < |serials|
      ensures Str2Int(texts[k]) == serials[k]
    {
      Str2IntOfDecimal([], serials[k], []);
      assert [] + Decimal(serials[k]) + [] == texts[k];
    }
  }
}
