/**
 * Licence plates as the check-in form receives them: the text is upper-cased,
 * its dashes are removed and surrounding white space is stripped, and the
 * result must be seven letters or digits.
 */
module Plate {

  /** Python's `str.isspace`: the code points it counts as white space. */
  predicate IsSpace(c: char)
  {
    var n := c as int;
    (9 <= n <= 13) || (28 <= n <= 32) || n == 0x85 || n == 0xA0 || n == 0x1680
    || (0x2000 <= n <= 0x200A) || n == 0x2028 || n == 0x2029 || n == 0x202F
    || n == 0x205F || n == 0x3000
  }

  predicate IsLower(c: char)
  {
    'a' <= c <= 'z'
  }

  /** Letters and digits, in the ASCII range. */
  predicate IsAlnum(c: char)
  {
    ('0' <= c <= '9') || ('A' <= c <= 'Z') || IsLower(c)
  }

  function UpperChar(c: char): (u: char)
    ensures !IsLower(u)
    ensures IsLower(c) ==> u as int == c as int - 32
    ensures !IsLower(c) ==> u == c
  {
    if IsLower(c) then (c as int - 32) as char else c
  }

  /** `s.upper()`, on the ASCII letters. */
  function Upper(s: string): (r: string)
    ensures |r| == |s|
    ensures forall i :: 0 <= i < |s| ==> r[i] == UpperChar(s[i])
  {
    if s == [] then [] else [UpperChar(s[0])] + Upper(s[1..])
  }

  /** `s.replace('-', '')`: the characters of `s` other than dashes, in order. */
  function RemoveDashes(s: string): (r: string)
    ensures forall i :: 0 <= i < |r| ==> r[i] != '-'
    ensures |r| <= |s|
  {
    if s == [] then []
    else if s[0] == '-' then RemoveDashes(s[1..])
    else [s[0]] + RemoveDashes(s[1..])
  }

  /** A single character survives dash removal exactly when it is not a dash. */
  lemma RemoveDashesSingle(c: char)
    ensures RemoveDashes([c]) == if c == '-' then [] else [c]
  {
  }

  /** Removing dashes keeps every other character and adds none. */
  lemma {:induction false} RemoveDashesMembers(s: string, c: char)
    ensures c in RemoveDashes(s) <==> c in s && c != '-'
  {
    if s != [] {
      RemoveDashesMembers(s[1..], c);
      assert s == [s[0]] + s[1..];
    }
  }

  /** `s.lstrip()`: `s` without its leading white space. */
  function StripLeft(s: string): (r: string)
    ensures |r| <= |s| && r == s[|s| - |r|..]
    ensures forall i :: 0 <= i < |s| - |r| ==> IsSpace(s[i])
    ensures r != [] ==> !IsSpace(r[0])
  {
    if s != [] && IsSpace(s[0]) then StripLeft(s[1..]) else s
  }

  /** `s.rstrip()`: `s` without its trailing white space. */
  function StripRight(s: string): (r: string)
    ensures |r| <= |s| && r == s[..|r|]
    ensures forall i :: |r| <= i < |s| ==> IsSpace(s[i])
    ensures r != [] ==> !IsSpace(r[|r| - 1])
  {
    if s != [] && IsSpace(s[|s| - 1]) then StripRight(s[..|s| - 1]) else s
  }

  /** `s.strip()`. */
  function Strip(s: string): (r: string)
    ensures r != [] ==> !IsSpace(r[0]) && !IsSpace(r[|r| - 1])
  {
    StripRight(StripLeft(s))
  }

  /** The check-in form's `placa.upper().replace('-', '').strip()`. */
  function Normalize(raw: string): (p: string)
    ensures |p| <= |raw|
  {
    Strip(RemoveDashes(Upper(raw)))
  }

  /** A plate the check-in accepts: seven letters or digits. */
  function IsValid(p: string): (b: bool)
    ensures b && (forall i :: 0 <= i < |p| ==> !IsLower(p[i])) <==> IsStored(p)
  {
    |p| == 7 && forall i :: 0 <= i < |p| ==> IsAlnum(p[i])
  }

  /** The form in which plates are stored: seven upper-case letters or digits. */
  predicate IsStored(p: string)
  {
    |p| == 7 && forall i :: 0 <= i < |p| ==> IsAlnum(p[i]) && !IsLower(p[i])
  }

  /** A plate that normalisation accepts is in stored form, and stored plates are fixed points of normalisation. */
  lemma NormalizeValidIsStored(raw: string)
    ensures IsValid(Normalize(raw)) ==> IsStored(Normalize(raw))
    ensures IsStored(raw) ==> Normalize(raw) == raw
  {
    NormalizeShape(raw);
    if IsStored(raw) {
      UpperOfUpper(raw);
      RemoveDashesOfDashFree(raw);
      assert !IsSpace(raw[0]) && !IsSpace(raw[6]);
    }
  }

  /** What normalisation leaves: no dash, no lower-case letter, no white space at either end. */
  lemma NormalizeShape(raw: string)
    ensures var p := Normalize(raw);
      && (forall i :: 0 <= i < |p| ==> p[i] != '-' && !IsLower(p[i]))
      && (p != [] ==> !IsSpace(p[0]) && !IsSpace(p[|p| - 1]))
  {
    var u := Upper(raw);
    var d := RemoveDashes(u);
    var l := StripLeft(d);
    var p := StripRight(l);
    forall i | 0 <= i < |p| ensures p[i] != '-' && !IsLower(p[i]) {
      assert p[i] == l[i] == d[|d| - |l| + i];
      assert p[i] in d;
      RemoveDashesMembers(u, p[i]);
    }
  }

  lemma {:induction false} UpperOfUpper(s: string)
    requires forall i :: 0 <= i < |s| ==> !IsLower(s[i])
    ensures Upper(s) == s
  {
    if s != [] {
      UpperOfUpper(s[1..]);
    }
  }

  lemma {:induction false} RemoveDashesOfDashFree(s: string)
    requires forall i :: 0 <= i < |s| ==> s[i] != '-'
    ensures RemoveDashes(s) == s
  {
    if s != [] {
      RemoveDashesOfDashFree(s[1..]);
    }
  }

  /** Normalising an already normalised plate changes nothing. */
  lemma NormalizeIdempotent(raw: string)
    ensures Normalize(Normalize(raw)) == Normalize(raw)
  {
    var p := Normalize(raw);
    NormalizeShape(raw);
    UpperOfUpper(p);
    RemoveDashesOfDashFree(p);
  }

  /** Upper-casing a concatenation upper-cases each part. */
  lemma {:induction false} UpperAppend(a: string, b: string)
    ensures Upper(a + b) == Upper(a) + Upper(b)
  {
    assert |Upper(a + b)| == |Upper(a) + Upper(b)|;
    forall i | 0 <= i < |a + b| ensures Upper(a + b)[i] == (Upper(a) + Upper(b))[i] {
    }
  }

  lemma {:induction false} RemoveDashesAppend(a: string, b: string)
    ensures RemoveDashes(a + b) == RemoveDashes(a) + RemoveDashes(b)
  {
    if a != [] {
      assert (a + b)[1..] == a[1..] + b;
      RemoveDashesAppend(a[1..], b);
    } else {
      assert a + b == b;
    }
  }
}
