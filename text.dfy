/** String helpers shared by the edge functions and the client: the
    control-character strip and `trim` that both functions apply to user
    input, ASCII lower-casing, substring search, and decimal rendering of
    naturals (used where the source interpolates a number into a string). */
module Text {

  datatype Option<+T> = None | Some(value: T)

  /** The characters the pattern /[\x00-\x1F\x7F]/ matches. */
  predicate IsControl(c: char) {
    c as int <= 0x1F || c as int == 0x7F
  }

  /** The characters JavaScript's `String.prototype.trim` removes and the regex
      class `\s` matches: WhiteSpace and LineTerminator of ECMAScript. */
  predicate IsSpace(c: char) {
    var n := c as int;
    (0x09 <= n <= 0x0D) || n == 0x20 || n == 0xA0 || n == 0x1680
    || (0x2000 <= n <= 0x200A) || n == 0x2028 || n == 0x2029 || n == 0x202F
    || n == 0x205F || n == 0x3000 || n == 0xFEFF
  }

  predicate NoControls(s: string) {
    forall i :: 0 <= i < |s| ==> !IsControl(s[i])
  }

  /** No JavaScript white space at either end. */
  predicate Trimmed(s: string) {
    s == [] || (!IsSpace(s[0]) && !IsSpace(s[|s| - 1]))
  }

  /** What `s.replace(/[\x00-\x1F\x7F]/g, '').trim()` can return. */
  predicate IsClean(s: string) {
    NoControls(s) && Trimmed(s)
  }

  /** s.replace(/[\x00-\x1F\x7F]/g, ''): every control character dropped,
      every other character kept, in order. */
  function StripControls(s: string): (r: string)
    ensures NoControls(r)
    ensures |r| <= |s|
  {
    if s == [] then []
    else
      assert s == [s[0]] + s[1..];
      if IsControl(s[0]) then StripControls(s[1..])
      else [s[0]] + StripControls(s[1..])
  }

  /** Leading white space removed: the result is the suffix of `s` that starts
      at its first non-space character. */
  function TrimStart(s: string): (r: string)
    ensures |r| <= |s| && r == s[|s| - |r|..]
    ensures r == [] || !IsSpace(r[0])
    ensures forall i :: 0 <= i < |s| - |r| ==> IsSpace(s[i])
  {
    if s != [] && IsSpace(s[0]) then
      var r := TrimStart(s[1..]);
      assert forall i :: 1 <= i < |s| - |r| ==> s[i] == s[1..][i - 1];
      r
    else s
  }

  /** Trailing white space removed: the result is the prefix of `s` that ends
      at its last non-space character. */
  function TrimEnd(s: string): (r: string)
    ensures |r| <= |s| && r == s[..|r|]
    ensures r == [] || !IsSpace(r[|r| - 1])
    ensures forall i :: |r| <= i < |s| ==> IsSpace(s[i])
  {
    if s != [] && IsSpace(s[|s| - 1]) then TrimEnd(s[..|s| - 1]) else s
  }

  /** String.prototype.trim: the slice of `s` left once the white space at
      both ends is gone. */
  function Trim(s: string): (r: string)
    ensures Trimmed(r)
    ensures |r| <= |s|
    ensures exists a, b ::
              0 <= a <= b <= |s| && r == s[a..b]
              && (forall i :: 0 <= i < a ==> IsSpace(s[i]))
              && (forall i :: b <= i < |s| ==> IsSpace(s[i]))
    ensures NoControls(s) ==> NoControls(r)
  {
    TrimParts(s);
    TrimStart(TrimEnd(s))
  }

  /** Trim's two steps, stated on the original string. */
  lemma TrimParts(s: string)
    ensures var u := TrimEnd(s);
      var a := |u| - |TrimStart(u)|;
      && TrimStart(u) == s[a..|u|]
      && (forall i :: 0 <= i < a ==> IsSpace(s[i]))
      && (NoControls(s) ==> NoControls(TrimStart(u)))
  {
    var u := TrimEnd(s);
    assert forall i :: 0 <= i < |u| ==> s[i] == u[i];
    if NoControls(s) {
      NoControlsSlice(s, |u| - |TrimStart(u)|, |u|);
    }
  }

  lemma NoControlsSlice(s: string, a: nat, b: nat)
    requires NoControls(s) && a <= b <= |s|
    ensures NoControls(s[a..b])
  {
    forall k | 0 <= k < b - a ensures !IsControl(s[a..b][k]) {
      assert s[a..b][k] == s[a + k];
    }
  }

  /** The sanitising expression both edge functions apply to user strings:
      the stripped string without its surrounding white space, so every
      character that is neither a control character nor white space survives,
      as often as it occurs, and the interior of the stripped string is kept
      as it is. */
  function Sanitize(s: string): (r: string)
    ensures IsClean(r)
    ensures |r| <= |s|
    ensures forall c :: !IsControl(c) && !IsSpace(c) ==> multiset(r)[c] == multiset(s)[c]
    ensures exists a, b ::
              0 <= a <= b <= |StripControls(s)| && r == StripControls(s)[a..b]
              && (forall i :: 0 <= i < a ==> IsSpace(StripControls(s)[i]))
              && (forall i :: b <= i < |StripControls(s)| ==> IsSpace(StripControls(s)[i]))
  {
    var t := StripControls(s);
    StripControlsKeeps(s);
    TrimKeeps(t);
    assert NoControls(Trim(t)) && |Trim(t)| <= |t|;
    Trim(t)
  }

  lemma {:induction false} StripControlsOfClean(s: string)
    requires NoControls(s)
    ensures StripControls(s) == s
  {
    if s != [] {
      StripControlsOfClean(s[1..]);
    }
  }

  lemma TrimOfTrimmed(s: string)
    requires Trimmed(s)
    ensures Trim(s) == s
  {
  }

  /** Sanitising is idempotent, and it leaves an already clean string alone. */
  lemma {:induction false} SanitizeOfClean(s: string)
    requires IsClean(s)
    ensures Sanitize(s) == s
  {
    StripControlsOfClean(s);
    TrimOfTrimmed(s);
  }

  lemma SanitizeIdempotent(s: string)
    ensures Sanitize(Sanitize(s)) == Sanitize(s)
  {
    SanitizeOfClean(Sanitize(s));
  }

  /** Stripping keeps exactly the characters that are not control
      characters. */
  lemma {:induction false} StripControlsKeeps(s: string)
    ensures forall c :: !IsControl(c) ==> multiset(StripControls(s))[c] == multiset(s)[c]
  {
    if s != [] {
      StripControlsKeeps(s[1..]);
      assert s == [s[0]] + s[1..];
    }
  }

  /** Trimming removes white space only: every other character occurs in
      the result as often as in the input. */
  lemma TrimKeeps(s: string)
    ensures forall c :: !IsSpace(c) ==> multiset(Trim(s))[c] == multiset(s)[c]
  {
    TrimEndKeeps(s);
    TrimStartKeeps(TrimEnd(s));
  }

  lemma {:induction false} TrimStartKeeps(s: string)
    ensures forall c :: !IsSpace(c) ==> multiset(TrimStart(s))[c] == multiset(s)[c]
  {
    if s != [] && IsSpace(s[0]) {
      TrimStartKeeps(s[1..]);
      assert s == [s[0]] + s[1..];
    }
  }

  lemma {:induction false} TrimEndKeeps(s: string)
    ensures forall c :: !IsSpace(c) ==> multiset(TrimEnd(s))[c] == multiset(s)[c]
  {
    if s != [] && IsSpace(s[|s| - 1]) {
      TrimEndKeeps(s[..|s| - 1]);
      assert s == s[..|s| - 1] + [s[|s| - 1]];
    }
  }

  /** The strip works character by character, so it keeps the order of what
      it keeps: stripping a concatenation strips each part. */
  lemma {:induction false} StripControlsAppend(s: string, t: string)
    ensures StripControls(s + t) == StripControls(s) + StripControls(t)
    ensures |s| == 1 ==> StripControls(s) == if IsControl(s[0]) then [] else s
  {
    if s == [] {
      assert s + t == t;
    } else {
      assert (s + t)[0] == s[0];
      assert (s + t)[1..] == s[1..] + t;
      StripControlsAppend(s[1..], t);
      if !IsControl(s[0]) {
        assert [s[0]] + (StripControls(s[1..]) + StripControls(t))
            == ([s[0]] + StripControls(s[1..])) + StripControls(t);
      }
    }
    if |s| == 1 {
      assert s[1..] == [];
    }
  }

  /** A string made only of control characters and white space sanitises to "". */
  lemma {:induction false} SanitizeBlank(s: string)
    requires forall i :: 0 <= i < |s| ==> IsControl(s[i]) || IsSpace(s[i])
    ensures Sanitize(s) == ""
  {
    var t := StripControls(s);
    StripControlsKeeps(s);
    assert forall i :: 0 <= i < |t| ==> IsSpace(t[i]) by {
      forall i | 0 <= i < |t| ensures IsSpace(t[i]) {
        var c := t[i];
        assert c in multiset(t);
        assert multiset(s)[c] == multiset(t)[c] > 0;
        assert c in s;
      }
    }
    assert TrimStart(t) == [];
  }

  /** ASCII case folding; every other character kept. */
  function LowerChar(c: char): char {
    if 'A' <= c <= 'Z' then (c as int + 32) as char else c
  }

  /** No upper-case ASCII letter. */
  predicate IsLower(s: string) {
    forall i :: 0 <= i < |s| ==> !('A' <= s[i] <= 'Z')
  }

  /** String.prototype.toLowerCase restricted to ASCII letters. */
  function ToLower(s: string): (r: string)
    ensures |r| == |s|
  {
    if s == [] then [] else [LowerChar(s[0])] + ToLower(s[1..])
  }

  /** Lower-casing works character by character. */
  lemma {:induction false} ToLowerAt(s: string)
    ensures forall i :: 0 <= i < |s| ==> ToLower(s)[i] == LowerChar(s[i])
  {
    if s != [] {
      ToLowerAt(s[1..]);
      assert forall i :: 1 <= i < |s| ==> s[1..][i - 1] == s[i];
    }
  }

  /** The result has no upper-case letter, and a string without one is left
      alone; so lower-casing is idempotent. */
  lemma ToLowerIsLower(s: string)
    ensures IsLower(ToLower(s))
    ensures IsLower(s) ==> ToLower(s) == s
  {
    ToLowerAt(s);
  }

  lemma ToLowerIdempotent(s: string)
    ensures ToLower(ToLower(s)) == ToLower(s)
  {
    ToLowerIsLower(s);
    ToLowerIsLower(ToLower(s));
  }

  /** Lower-casing keeps a sanitised string sanitised. */
  lemma ToLowerKeepsClean(s: string)
    requires IsClean(s)
    ensures IsClean(ToLower(s))
  {
    ToLowerAt(s);
  }

  /** Lower-casing commutes with taking a prefix, as for `.slice(0, n)`. */
  lemma ToLowerPrefix(s: string, n: nat)
    requires n <= |s|
    ensures ToLower(s[..n]) == ToLower(s)[..n]
  {
    ToLowerAt(s);
    ToLowerAt(s[..n]);
  }

  /** String.prototype.includes. */
  predicate Contains(s: string, part: string) {
    exists i :: 0 <= i <= |s| - |part| && part <= s[i..]
  }

  /** A prefix of `s` contains only what `s` contains. */
  lemma ContainsInPrefix(s: string, n: nat, part: string)
    requires n <= |s|
    requires Contains(s[..n], part)
    ensures Contains(s, part)
  {
    var i :| 0 <= i <= n - |part| && part <= s[..n][i..];
    assert s[..n][i..] <= s[i..];
  }

  function DigitChar(d: nat): char
    requires d < 10
  {
    "0123456789"[d]
  }

  /** Base-ten rendering of a natural, as template-literal interpolation gives. */
  function NatToDecimal(n: nat): (r: string)
    ensures r != []
    ensures forall i :: 0 <= i < |r| ==> '0' <= r[i] <= '9'
    ensures |r| > 1 ==> r[0] != '0'
  {
    if n < 10 then [DigitChar(n)] else NatToDecimal(n / 10) + [DigitChar(n % 10)]
  }

  /** The value of a string of decimal digits, read most significant first. */
  function DecimalValue(s: string): nat
    requires forall i :: 0 <= i < |s| ==> '0' <= s[i] <= '9'
  {
    if s == [] then 0
    else 10 * DecimalValue(s[..|s| - 1]) + ((s[|s| - 1] as int - '0' as int) as nat)
  }

  /** Rendering a natural and reading it back gives the same natural. */
  lemma {:induction false} DecimalRoundTrip(n: nat)
    ensures DecimalValue(NatToDecimal(n)) == n
  {
    var r := NatToDecimal(n);
    if n >= 10 {
      DecimalRoundTrip(n / 10);
      assert r[..|r| - 1] == NatToDecimal(n / 10);
    }
  }
}
