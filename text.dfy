/** Character classes and the string primitives the program relies on:
    whitespace skipping as done by `>>` on a stream, `std::string::find`,
    and the whitespace tokenisation of `stringstream >> std::string`. */
module Text {
  import opened Wrappers

  /** The characters `isspace` accepts in the C locale. */
  predicate IsSpace(c: char) {
    c == ' ' || c == '\t' || c == '\n' || c == '\U{0B}' || c == '\U{0C}' || c == '\r'
  }

  predicate AllSpace(s: string) {
    forall k :: 0 <= k < |s| ==> IsSpace(s[k])
  }

  /** A token as `>>` into a string reads it: non-empty, no whitespace. */
  predicate IsToken(t: string) {
    |t| > 0 && forall k :: 0 <= k < |t| ==> !IsSpace(t[k])
  }

  /** Index of the first non-whitespace character, or |s| when there is none. */
  function SkipSpace(s: string): (i: nat)
    ensures i <= |s|
    ensures forall k :: 0 <= k < i ==> IsSpace(s[k])
    ensures i < |s| ==> !IsSpace(s[i])
  {
    if |s| == 0 || !IsSpace(s[0]) then 0 else 1 + SkipSpace(s[1..])
  }

  /** Index of the first whitespace character, or |s| when there is none. */
  function TokenEnd(s: string): (j: nat)
    ensures j <= |s|
    ensures forall k :: 0 <= k < j ==> !IsSpace(s[k])
    ensures j < |s| ==> IsSpace(s[j])
  {
    if |s| == 0 || IsSpace(s[0]) then 0 else 1 + TokenEnd(s[1..])
  }

  /** `p` occurs in `s` starting at index `i`. */
  predicate OccursAt(s: string, p: string, i: nat) {
    i + |p| <= |s| && s[i..i + |p|] == p
  }

  /** `s.find(p, from)`: the first index at or after `from` where `p` occurs,
      `None` standing for `npos`. */
  function FindFrom(s: string, p: string, from: nat): (r: Option<nat>)
    decreases |s| - from
    ensures r.Some? ==> from <= r.value && OccursAt(s, p, r.value)
    ensures r.Some? ==> forall i :: from <= i < r.value ==> !OccursAt(s, p, i)
    ensures r.None? ==> forall i :: from <= i ==> !OccursAt(s, p, i)
  {
    if from + |p| > |s| then None
    else if s[from..from + |p|] == p then Some(from)
    else FindFrom(s, p, from + 1)
  }

  /** `s.find(p)`. */
  function Find(s: string, p: string): Option<nat> {
    FindFrom(s, p, 0)
  }

  /** The tokens `stringstream >> std::string` reads from `s`, in order:
      whitespace is skipped, and a token runs up to the next whitespace. */
  function Tokens(s: string): (ts: seq<string>)
    decreases |s|
    ensures forall k :: 0 <= k < |ts| ==> IsToken(ts[k])
    ensures ts == [] <==> AllSpace(s)
  {
    if s == [] then []
    else if IsSpace(s[0]) then Tokens(s[1..])
    else
      var e := TokenEnd(s);
      [s[..e]] + Tokens(s[e..])
  }

  /** Tokens joined by single blanks: the canonical text of a token list. */
  function Join(ts: seq<string>): string {
    if |ts| == 0 then []
    else if |ts| == 1 then ts[0]
    else ts[0] + ([' '] + Join(ts[1..]))
  }

  /** Skipping whitespace stops exactly after a whitespace prefix. */
  lemma SkipSpaceAfter(ws: string, u: string)
    requires AllSpace(ws)
    requires u == [] || !IsSpace(u[0])
    ensures SkipSpace(ws + u) == |ws|
  {
    var s := ws + u;
    assert forall k :: 0 <= k < |ws| ==> s[k] == ws[k];
    assert u != [] ==> s[|ws|] == u[0];
  }

  /** A token ends exactly where whitespace (or the end) follows it. */
  lemma TokenEndAfter(t: string, rest: string)
    requires IsToken(t)
    requires rest == [] || IsSpace(rest[0])
    ensures TokenEnd(t + rest) == |t|
  {
    var s := t + rest;
    assert forall k :: 0 <= k < |t| ==> s[k] == t[k];
    assert rest != [] ==> s[|t|] == rest[0];
  }

  /** A token followed by whitespace (or nothing) is read first. */
  lemma TokensHead(t: string, rest: string)
    requires IsToken(t)
    requires rest == [] || IsSpace(rest[0])
    ensures Tokens(t + rest) == [t] + Tokens(rest)
  {
    var s := t + rest;
    assert s[0] == t[0];
    TokenEndAfter(t, rest);
    assert s[..|t|] == t;
    assert s[|t|..] == rest;
  }

  /** Leading whitespace before a token, and whitespace (or the end) right
      after it, make no difference to what is read next. */
  lemma {:induction false} TokensCons(ws: string, t: string, rest: string)
    requires AllSpace(ws) && IsToken(t)
    requires rest == [] || IsSpace(rest[0])
    ensures Tokens(ws + t + rest) == [t] + Tokens(rest)
    decreases |ws|
  {
    var s := ws + t + rest;
    if ws == [] {
      assert s == t + rest;
      TokensHead(t, rest);
    } else {
      assert s[1..] == ws[1..] + t + rest;
      TokensCons(ws[1..], t, rest);
    }
  }

  /** A leading blank is skipped. */
  lemma TokensSkipBlank(rest: string)
    ensures Tokens([' '] + rest) == Tokens(rest)
  {
    assert ([' '] + rest)[1..] == rest;
  }

  /** Tokenising the blank-joined text of a token list gives the list back. */
  lemma {:induction false} TokensOfJoin(ts: seq<string>)
    requires forall k :: 0 <= k < |ts| ==> IsToken(ts[k])
    ensures Tokens(Join(ts)) == ts
  {
    if |ts| == 1 {
      TokensHead(ts[0], []);
      assert ts[0] + [] == ts[0];
    } else if |ts| > 1 {
      var tail := ts[1..];
      TokensOfJoin(tail);
      TokensSkipBlank(Join(tail));
      TokensHead(ts[0], [' '] + Join(tail));
      assert ts == [ts[0]] + tail;
    }
  }
}
