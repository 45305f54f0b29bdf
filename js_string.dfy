/** JavaScript strings as the demo sees them: sequences of UTF-16 code units
    (what `charCodeAt` returns), with the two built-ins the demo calls on them,
    `trim` and `startsWith`. */
module JsString {

  /** One UTF-16 code unit. */
  newtype CodeUnit = x: int | 0 <= x < 0x1_0000

  type Text = seq<CodeUnit>

  /** The code units `String.prototype.trim` strips: ECMAScript WhiteSpace
      (tab, vertical tab, form feed, space, no-break space, byte order mark and
      the Unicode space separators) and LineTerminator (LF, CR, LS, PS). */
  predicate IsWhiteSpace(c: CodeUnit) {
    || c == 0x09 || c == 0x0B || c == 0x0C || c == 0x20 || c == 0xA0 || c == 0xFEFF
    || c == 0x1680 || (0x2000 <= c <= 0x200A) || c == 0x202F || c == 0x205F || c == 0x3000
    || c == 0x0A || c == 0x0D || c == 0x2028 || c == 0x2029
  }

  /** Removes the leading white space. */
  function TrimStart(s: Text): (r: Text)
    ensures |r| <= |s|
    ensures r == [] || !IsWhiteSpace(r[0])
  {
    if s != [] && IsWhiteSpace(s[0]) then TrimStart(s[1..]) else s
  }

  /** Removes the trailing white space. */
  function TrimEnd(s: Text): (r: Text)
    ensures |r| <= |s|
    ensures r == [] || !IsWhiteSpace(r[|r| - 1])
  {
    if s != [] && IsWhiteSpace(s[|s| - 1]) then TrimEnd(s[..|s| - 1]) else s
  }

  /** `String.prototype.trim`: strips white space from both ends. Neither end of
      the result is white space. */
  function Trim(s: Text): (r: Text)
    ensures |r| <= |s|
    ensures r == [] || (!IsWhiteSpace(r[0]) && !IsWhiteSpace(r[|r| - 1]))
  {
    var front := TrimStart(s);
    TrimEndStripsWhiteSpace(front);
    TrimEnd(front)
  }

  /** What trim keeps is one contiguous piece of its input. */
  lemma TrimIsSlice(s: Text)
    ensures exists lo :: OccursAt(s, Trim(s), lo)
  {
    var front := TrimStart(s);
    TrimStartStripsWhiteSpace(s);
    TrimEndStripsWhiteSpace(front);
    assert OccursAt(s, Trim(s), |s| - |front|);
  }

  /** TrimStart keeps a suffix of its input, and everything it removes is white space. */
  lemma {:induction false} TrimStartStripsWhiteSpace(s: Text)
    ensures TrimStart(s) == s[|s| - |TrimStart(s)|..]
    ensures forall i :: 0 <= i < |s| - |TrimStart(s)| ==> IsWhiteSpace(s[i])
  {
    if s != [] && IsWhiteSpace(s[0]) {
      TrimStartStripsWhiteSpace(s[1..]);
      assert s[1..][|s| - 1 - |TrimStart(s)|..] == s[|s| - |TrimStart(s)|..];
      forall i | 0 <= i < |s| - |TrimStart(s)| ensures IsWhiteSpace(s[i]) {
        if i > 0 {
          assert s[i] == s[1..][i - 1];
        }
      }
    }
  }

  /** TrimEnd keeps a prefix of its input, and everything it removes is white space. */
  lemma {:induction false} TrimEndStripsWhiteSpace(s: Text)
    ensures TrimEnd(s) == s[..|TrimEnd(s)|]
    ensures forall i :: |TrimEnd(s)| <= i < |s| ==> IsWhiteSpace(s[i])
  {
    if s != [] && IsWhiteSpace(s[|s| - 1]) {
      TrimEndStripsWhiteSpace(s[..|s| - 1]);
      assert s[..|s| - 1][..|TrimEnd(s)|] == s[..|TrimEnd(s)|];
      forall i | |TrimEnd(s)| <= i < |s| ensures IsWhiteSpace(s[i]) {
        if i < |s| - 1 {
          assert s[i] == s[..|s| - 1][i];
        }
      }
    }
  }

  /** Trim yields the empty string exactly when its input is white space throughout
      (the empty string included): the inputs the demo rejects. */
  lemma {:induction false} TrimEmptyIffBlank(s: Text)
    ensures Trim(s) == [] <==> forall i :: 0 <= i < |s| ==> IsWhiteSpace(s[i])
  {
    var front := TrimStart(s);
    TrimStartStripsWhiteSpace(s);
    TrimEndStripsWhiteSpace(front);
    if Trim(s) == [] {
      assert front == [];
    }
  }

  /** Trim leaves alone a string that neither starts nor ends with white space. */
  lemma TrimKeeps(s: Text)
    requires s != [] && !IsWhiteSpace(s[0]) && !IsWhiteSpace(s[|s| - 1])
    ensures Trim(s) == s
  {
  }

  /** `part` appears in `s` starting at index `lo`. */
  predicate OccursAt(s: Text, part: Text, lo: int) {
    0 <= lo && lo + |part| <= |s| && s[lo..lo + |part|] == part
  }

  /** `s.startsWith(prefix)`: the first `|prefix|` code units of `s` are `prefix`. */
  predicate StartsWith(s: Text, prefix: Text) {
    |prefix| <= |s| && s[..|prefix|] == prefix
  }
}
