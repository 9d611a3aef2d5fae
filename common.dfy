/** Helpers shared by the schemas: optional values, JavaScript white space,
    String.prototype.trim and the lower-casing setter. */
module Common {

  datatype Option<+T> = None | Some(value: T)

  /** Owner ids (MongoDB ObjectIds) are opaque; a natural number stands for one. */
  type UserId = nat

  /** Index of the first element satisfying `p`, if any: the document that
      findOne, findById and a filtered update or delete select, and the
      element `Array.prototype.find` returns. */
  function FirstWhere<T>(s: seq<T>, p: T -> bool): (r: Option<nat>)
    ensures r.None? <==> forall k :: 0 <= k < |s| ==> !p(s[k])
    ensures r.Some? ==> r.value < |s| && p(s[r.value])
    ensures r.Some? ==> forall k :: 0 <= k < r.value ==> !p(s[k])
  {
    if s == [] then None
    else if p(s[0]) then Some(0)
    else
      match FirstWhere(s[1..], p)
      case None => None
      case Some(k) => Some(k + 1)
  }

  /** JavaScript white space and line terminators: exactly the characters that
      the regular-expression class `\s` matches and that `trim` removes. */
  predicate IsSpace(c: char) {
    || c == '\t' || c == '\n' || c == '\U{B}' || c == '\U{C}' || c == '\r' || c == ' '
    || c == '\U{A0}' || c == '\U{1680}' || ('\U{2000}' <= c <= '\U{200A}')
    || c == '\U{2028}' || c == '\U{2029}' || c == '\U{202F}' || c == '\U{205F}'
    || c == '\U{3000}' || c == '\U{FEFF}'
  }

  /** The string is made of `\S` characters only. */
  predicate NoSpace(s: string) {
    forall i :: 0 <= i < |s| ==> !IsSpace(s[i])
  }

  /** JavaScript truthiness of an optional string field of a request body:
      missing and "" are falsy, anything else (even "  ") is truthy. */
  predicate Truthy(s: Option<string>) {
    s.Some? && s.value != []
  }

  /** Neither end of the string is white space. */
  predicate Trimmed(s: string) {
    s != [] ==> !IsSpace(s[0]) && !IsSpace(s[|s| - 1])
  }

  /** String.prototype.trim: drops leading and trailing white space. */
  function Trim(s: string): (r: string)
    ensures |r| <= |s|
    ensures Trimmed(r)
    ensures r == [] <==> forall i :: 0 <= i < |s| ==> IsSpace(s[i])
  {
    if s != [] && IsSpace(s[0]) then
      assert forall i :: 1 <= i < |s| ==> s[i] == s[1..][i - 1];
      Trim(s[1..])
    else if s != [] && IsSpace(s[|s| - 1]) then
      assert forall i :: 0 <= i < |s| - 1 ==> s[i] == s[..|s| - 1][i];
      Trim(s[..|s| - 1])
    else s
  }

  /** Only white space lies outside s[a..b]. */
  predicate SpaceOutside(s: string, a: nat, b: nat) {
    && a <= b <= |s|
    && (forall i :: 0 <= i < a ==> IsSpace(s[i]))
    && (forall i :: b <= i < |s| ==> IsSpace(s[i]))
  }

  /** Trim removes exactly the leading and the trailing white space: its result
      is a slice of the input with only white space before and after it. With
      the ends of the result not white space, this fixes the slice. */
  lemma {:induction false} TrimIsSlice(s: string)
    ensures exists a: nat, b: nat :: SpaceOutside(s, a, b) && Trim(s) == s[a..b]
    decreases |s|
  {
    if s != [] && IsSpace(s[0]) {
      var t := s[1..];
      TrimIsSlice(t);
      var a: nat, b: nat :| SpaceOutside(t, a, b) && Trim(t) == t[a..b];
      assert t[a..b] == s[a + 1..b + 1];
      forall i | 1 <= i < |s| ensures s[i] == t[i - 1] { }
      assert SpaceOutside(s, a + 1, b + 1);
    } else if s != [] && IsSpace(s[|s| - 1]) {
      var t := s[..|s| - 1];
      TrimIsSlice(t);
      var a: nat, b: nat :| SpaceOutside(t, a, b) && Trim(t) == t[a..b];
      assert t[a..b] == s[a..b];
      forall i | 0 <= i < |t| ensures s[i] == t[i] { }
      assert SpaceOutside(s, a, b);
    } else {
      assert SpaceOutside(s, 0, |s|) && Trim(s) == s[0..|s|];
    }
  }

  /** The length JavaScript reports for a string (`.length`, which Mongoose's
      minlength and maxlength compare against): UTF-16 code units, so a
      character outside the Basic Multilingual Plane counts twice. */
  function Utf16Length(s: string): (n: nat)
    ensures |s| <= n <= 2 * |s|
  {
    if s == [] then 0
    else Utf16Length(s[..|s| - 1]) + (if s[|s| - 1] as int >= 0x1_0000 then 2 else 1)
  }

  /** One character counts 2 code units from U+10000 on (a surrogate pair)
      and 1 below. */
  lemma Utf16LengthChar(c: char)
    ensures Utf16Length([c]) == if c as int >= 0x1_0000 then 2 else 1
  {
    assert [c][..0] == [];
  }

  /** The JavaScript length of a concatenation is the sum of the lengths. */
  lemma {:induction false} Utf16LengthConcat(s: string, t: string)
    ensures Utf16Length(s + t) == Utf16Length(s) + Utf16Length(t)
    decreases |t|
  {
    if t != [] {
      var init := t[..|t| - 1];
      assert (s + t)[..|s + t| - 1] == s + init;
      assert (s + t)[|s + t| - 1] == t[|t| - 1];
      Utf16LengthConcat(s, init);
    } else {
      assert s + t == s;
    }
  }

  /** On text of the Basic Multilingual Plane the two lengths agree. */
  lemma {:induction false} Utf16LengthBmp(s: string)
    requires forall i :: 0 <= i < |s| ==> s[i] as int < 0x1_0000
    ensures Utf16Length(s) == |s|
  {
    if s != [] {
      Utf16LengthBmp(s[..|s| - 1]);
    }
  }

  /** A string that starts and ends with non-space characters is its own trim. */
  lemma TrimOfTrimmed(s: string)
    requires Trimmed(s)
    ensures Trim(s) == s
  {
  }

  /** The fixed points of trim are exactly the trimmed strings. */
  lemma TrimmedIff(s: string)
    ensures Trimmed(s) <==> Trim(s) == s
  {
    if Trimmed(s) {
      TrimOfTrimmed(s);
    }
  }

  lemma TrimIdempotent(s: string)
    ensures Trim(Trim(s)) == Trim(s)
  {
    TrimOfTrimmed(Trim(s));
  }

  /** A string without white space is left alone by trim. */
  lemma TrimNoSpace(s: string)
    requires NoSpace(s)
    ensures Trim(s) == s
  {
    TrimOfTrimmed(s);
  }

  /** No ASCII upper-case letter occurs in the string. */
  predicate NoUpper(s: string) {
    forall i :: 0 <= i < |s| ==> !('A' <= s[i] <= 'Z')
  }

  function LowerChar(c: char): char {
    if 'A' <= c <= 'Z' then (c as int + 32) as char else c
  }

  /** String.prototype.toLowerCase on the ASCII letters. */
  function Lower(s: string): (r: string)
    ensures |r| == |s|
  {
    seq(|s|, i requires 0 <= i < |s| => LowerChar(s[i]))
  }

  /** Lower-casing leaves no upper-case letter, keeps white space where it
      was, leaves every character other than 'A'..'Z' alone and moves each of
      those to its lower-case letter, 32 code points further on. */
  lemma LowerFacts(s: string)
    ensures NoUpper(Lower(s))
    ensures forall i :: 0 <= i < |s| ==> (IsSpace(Lower(s)[i]) <==> IsSpace(s[i]))
    ensures forall i :: 0 <= i < |s| && !('A' <= s[i] <= 'Z') ==> Lower(s)[i] == s[i]
    ensures forall i :: 0 <= i < |s| && 'A' <= s[i] <= 'Z' ==> Lower(s)[i] as int == s[i] as int + 32
  {
  }

  /** The two characters are equal or are the same ASCII letter in the two cases. */
  predicate SameLetter(a: char, b: char) {
    || a == b
    || ('A' <= a <= 'Z' && b as int == a as int + 32)
    || ('A' <= b <= 'Z' && a as int == b as int + 32)
  }

  /** Equal up to the case of ASCII letters. */
  predicate SameIgnoringCase(x: string, y: string) {
    |x| == |y| && forall i :: 0 <= i < |x| ==> SameLetter(x[i], y[i])
  }

  /** Two strings lower-case to the same string exactly when they agree up
      to ASCII case. */
  lemma LowerEqIff(x: string, y: string)
    ensures Lower(x) == Lower(y) <==> SameIgnoringCase(x, y)
  {
    if Lower(x) == Lower(y) {
      forall i | 0 <= i < |x| ensures SameLetter(x[i], y[i]) {
        assert Lower(x)[i] == Lower(y)[i];
      }
    }
    if SameIgnoringCase(x, y) {
      forall i | 0 <= i < |x| ensures Lower(x)[i] == Lower(y)[i] {
        assert SameLetter(x[i], y[i]);
      }
    }
  }

  lemma LowerIdempotent(s: string)
    ensures Lower(Lower(s)) == Lower(s)
  {
  }

  /** Lower-casing changes a string exactly when it has an upper-case letter. */
  lemma LowerFixedIff(s: string)
    ensures Lower(s) == s <==> NoUpper(s)
  {
    if Lower(s) == s {
      LowerFacts(s);
    }
  }
}
