# rotate: a Dafny model

`rotate` reads a PDB structure file and a selection file. Each directive of
the selection file is a line of atom serial numbers followed by an axis
character and an angle in degrees. The program rewrites the structure file:
every ATOM/HETATM line whose serial is listed gets its coordinates rotated
about the named axis, and every other line is copied unchanged.

The model covers the program's core:

- `Text`: C-locale whitespace, `std::string::find`, whitespace tokenising
  as `stringstream >> string` does it, and a joiner for writing member lines.
- `IntParse`: `str2int`, which is `stringstream >> int` with 0 on failure.
  It skips leading whitespace, takes an optional sign and the longest digit
  run, fails when there is no digit or the value does not fit a 32-bit
  `int`, and ignores trailing text.
- `Record`: the `atom` record, `readatom`'s fixed-column slicing,
  `operator<<`, and the test that makes a line an atom line.
- `Rotation`: the axis step of the `x` / `y` / `z` if-chain on a point.
- `Selection`: `residue` as `Group`, `split` and the loader loop. Both grow
  a vector by doubling it; here the vector is an array and `resize` is the
  `Resize` method.
- `Engine`: `operator==` (serials only) and the nested group/entry loops of
  `main` on one atom. Also the per-line rewrite and the loop over the
  structure file.

Floating point is abstracted. Coordinates are real numbers. `str2double`,
the `setw(8) << setprecision(3)` formatter, `cos` and `sin` are
function-typed parameters.

The model follows what the code does, including where one might expect
otherwise:

- A line that contains "ATOM" or "HETATM" but is shorter than 54 characters
  makes `substr(54, 26)` throw `out_of_range`, so the program stops there.
  One might expect short atom lines to be tolerated; they are not.
  `ReadAtom` returns `Err(OutOfRange)` and `Rewrite` stops with that
  failure. Since `endl` flushes after every line (rotate.cpp:138,176), the
  output file then holds exactly the lines `Rewrite` returns.
- The `y` and `z` branches are proper rotations. The `x` branch uses the
  matrix `[[c, -s], [-s, c]]` on (y, z), whose determinant is c² − s², so it
  is not a rotation (`StepXUndoScales`, `StepXShrinks`). The model keeps the
  code's `x` branch as written.
- `str2int` accepts a sign, leading whitespace and trailing garbage ("12ab"
  reads as 12). It gives 0 for text that overflows an `int`.
- A trailing member line without an axis/angle line is not rejected. It
  gets axis `'\0'` and angle 0, and such a group moves nothing
  (`ApplyGroupsOtherAxes`).

## Model

| member | source | states |
|---|---|---|
| Text.FindFrom | rotate.cpp:137 | the result is the first position at or after `from` where the pattern occurs, or `None` exactly when it occurs nowhere there |
| Text.Tokens | rotate.cpp:94-97 | every token is non-empty and blank-free; the list is empty exactly when the line is all whitespace |
| Text.TokensOfJoin | rotate.cpp:94-97 | tokenising blank-separated tokens gives back exactly those tokens, in order |
| IntParse.ParseInt | rotate.cpp:55-60 | a successful extraction is always within the 32-bit `int` range |
| IntParse.Str2Int | rotate.cpp:55-60 | the result is within the `int` range; when the extraction succeeds it is the value read, and a non-zero result always comes from a successful read |
| IntParse.ParseIntOfDecimal | rotate.cpp:55-60 | after whitespace and before a non-digit, the decimal text of `n` reads as `n` when `n` fits an `int` and fails otherwise |
| IntParse.Str2IntOfDecimal | rotate.cpp:55-60 | `str2int` of the decimal text of an `int` gives it back; out of range it gives 0 |
| IntParse.ParseIntOfDigits | rotate.cpp:55-60 | after whitespace, an optional '+' or '-' and any digit string (leading zeros included) before a non-digit, the read is the digits' value, negated for '-', when it fits an `int`, and fails otherwise |
| IntParse.ParseIntNoLeadingDigit | rotate.cpp:55-60 | when the character after the whitespace and at most one sign is not a digit (or the text ends there), the read fails and `str2int` gives 0 |
| IntParse.ParseIntNoDigit | rotate.cpp:55-60 | text without a digit fails to parse and `str2int` gives 0 |
| Record.ReadAtom | rotate.cpp:61-71 | succeeds exactly when the line has at least 54 characters; `before` is columns [0,30), `after` is [54,80) clipped to the line, serial, resSeq and x/y/z come from their fixed columns |
| Record.IsAtomLine | rotate.cpp:137 | a line is an atom line exactly when "ATOM" or "HETATM" occurs somewhere in it |
| Record.EncodeOfRead | rotate.cpp:77-85 | for any formatter, writing back a read atom with new coordinates gives the line's first 30 characters, the three formatted values, then the line from column 54 to column 80 |
| Record.EncodeKeepsColumns | rotate.cpp:61-85 | writing back a read line with any 8-column coordinates gives the layout of `EncodeOfRead` and keeps columns [0,30) and [54,80), puts the coordinates in [30,54) and drops text past column 80 |
| Record.ReadAtomOfEncode | rotate.cpp:61-85 | reading a written atom gives it back when its raw fields have full width, its serial and resSeq match its text, and the parse inverts the formatter |
| Rotation.Step | rotate.cpp:147-170 | an axis other than 'x', 'y', 'z' changes nothing, and each axis keeps its own coordinate |
| Rotation.StepByZero | rotate.cpp:147-170 | the zero angle (c = 1, s = 0) changes nothing about any axis |
| Rotation.StepKeepsNorm | rotate.cpp:155-170 | about y and z, a step with c² + s² = 1 keeps the distance from the origin |
| Rotation.StepUndo | rotate.cpp:155-170 | about y and z, the step by the negated angle undoes the step |
| Rotation.StepXUndoScales | rotate.cpp:147-154 | about x, the step by the negated angle after the step scales y and z by c² − s² instead of restoring them |
| Rotation.StepXShrinks | rotate.cpp:147-154 | a concrete cosine/sine pair for which the x step shrinks a point, so it is not a rotation |
| Selection.Resize | rotate.cpp:100-102 | the new buffer has the requested length and keeps the old elements that fit |
| Selection.Split | rotate.cpp:91-104 | one selector per whitespace token of the line, in order, holding `str2int` of the token |
| Selection.SelectorsOfSerialLine | rotate.cpp:91-104 | splitting a blank-separated list of `int` serials gives one selector per serial, in order, duplicates kept |
| Selection.RadiansScale | rotate.cpp:123 | the degree-to-radian conversion is linear: 180 degrees gives 3.141592, 0 gives 0, opposite angles give opposite results |
| Selection.LoadGroups | rotate.cpp:119-130 | one group per directive in file order: the member line's selectors, the angle in radians with pi as 3.141592, the axis character |
| Engine.MatchesBySerial | rotate.cpp:87-89 | a selector matches exactly the atoms with its serial, and changing an atom's coordinates never changes which entries it matches |
| Engine.EntriesRepeat | rotate.cpp:144-172 | a group applies its step once per entry with the atom's serial, so a serial listed twice is rotated twice |
| Engine.ApplyGroupsAppend | rotate.cpp:143-174 | groups compose by successive application in load order |
| Engine.ApplyGroupsIsReference | rotate.cpp:143-174 | the nested loops equal the reference reading: each group in order applies its step as many times as it lists the serial |
| Engine.ApplyGroupsUnmatched | rotate.cpp:143-174 | an atom whose serial no group lists keeps its coordinates |
| Engine.ApplyGroupsOtherAxes | rotate.cpp:147-170 | groups whose axis is not 'x', 'y' or 'z' move nothing |
| Engine.UndoByOppositeGroup | rotate.cpp:143-170 | a y or z group by theta followed by the same group by -theta leaves the atom in place |
| Engine.QuarterTurnAboutZ | rotate.cpp:163-170 | an atom with serial 5 at (1, 0, 0), in one group {5} turning a quarter turn about z, ends at (0, 1, 0) |
| Engine.RotateEntry | rotate.cpp:147-170 | the if-chain through `cur_x`, `cur_y`, `cur_z` sets the atom's coordinates to the group's step of its old ones and changes no other field |
| Engine.ProcessAtom | rotate.cpp:141-174 | the nested loops leave the atom as read, with its coordinates replaced by all groups' steps applied in order |
| Engine.RewriteLine | rotate.cpp:136-176 | a non-atom line is copied unchanged; an atom line is rewritten exactly when it has at least 54 characters |
| Engine.RewriteAtomLine | rotate.cpp:136-176 | a rewritten atom line keeps columns [0,30) and [54,80), holds the rotated coordinates in [30,54), and an unlisted atom keeps the coordinates it was read with |
| Engine.Rewrite | rotate.cpp:136-177 | one output line per input line in order, non-atom lines copied; it stops exactly at the first short atom line, with `OutOfRange` |

## Left out

- File and stream I/O are not modelled: opening `input`, `argv[1]` and `argv[2]`, `getline`, `endl`, and the usage message when fewer than two arguments are given. The structure file is a sequence of lines and the output is a sequence of lines.
- The loader's `istream` mechanics are not modelled: `>> axis >> theta` and `ignore(100, '\n')`. `LoadGroups` takes the directives already read as member line, axis character and degrees. A trailing member line with no axis/angle line is supplied as axis `'\0'` and 0 degrees, as the stream leaves them.
- Floating point is not modelled. `str2double`, the `setw(8) << setprecision(3)` formatter, `cos` and `sin` are parameters, coordinates are reals, and pi is the rational 3.141592.
- Record.EncodeKeepsColumns: its column positions assume each formatted coordinate is exactly 8 characters (`FitsField`); a value that needs more columns widens the field and shifts `after`. The layout as a concatenation holds for any formatter (`EncodeOfRead`).
- Engine.RewriteAtomLine: assumes the formatter writes every value in exactly 8 characters, for the same reason.
- `trim` (rotate.cpp:73-75) is the identity and is never called.
- `resSeq` is parsed but never used by the program; the model parses it and nothing reads it.
- The selector atoms `split` builds leave every field but `serial` uninitialised. The model sets them to zero and empty text; they are never read, because atoms are compared by serial alone.
- Engine.Rewrite: the `out_of_range` exception is a failure value returned with the lines written so far. Program termination after the uncaught exception (abort, exit status) is not modelled. Every earlier line was flushed by its `endl`, so the output file holds exactly those lines.
