/**
 * Text helpers the handlers rely on: JavaScript truthiness of a form field,
 * `String.prototype.trim`, the `/^\d{4}$/` group-code check, and the byte-wise
 * order SQLite's BINARY collation (and JavaScript's default sort) puts on text.
 */
module Text {
  import opened Wrappers

  /** The characters `trim` removes: white space and line terminators. */
  predicate IsSpace(c: char) {
    || c == ' ' || c == '\t' || c == '\n' || c == '\U{B}' || c == '\U{C}' || c == '\r'
    || c == '\U{A0}' || c == '\U{1680}' || ('\U{2000}' <= c <= '\U{200A}')
    || c == '\U{2028}' || c == '\U{2029}' || c == '\U{202F}' || c == '\U{205F}'
    || c == '\U{3000}' || c == '\U{FEFF}'
  }

  /** Number of white-space characters at the start of `s`. */
  function LeadingSpaces(s: string): (n: nat)
    ensures n <= |s|
    ensures forall i :: 0 <= i < n ==> IsSpace(s[i])
    ensures n < |s| ==> !IsSpace(s[n])
  {
    if s == [] || !IsSpace(s[0]) then 0 else 1 + LeadingSpaces(s[1..])
  }

  /** Number of white-space characters at the end of `s`. */
  function TrailingSpaces(s: string): (n: nat)
    ensures n <= |s|
    ensures forall i :: |s| - n <= i < |s| ==> IsSpace(s[i])
    ensures n < |s| ==> !IsSpace(s[|s| - 1 - n])
  {
    if s == [] || !IsSpace(s[|s| - 1]) then 0 else 1 + TrailingSpaces(s[..|s| - 1])
  }

  /** Everything of `s` before position `i` and from position `j` on is white space. */
  predicate OuterSpaces(s: string, i: int, j: int) {
    && 0 <= i <= j <= |s|
    && (forall k :: 0 <= k < i ==> IsSpace(s[k]))
    && (forall k :: j <= k < |s| ==> IsSpace(s[k]))
  }

  /** `s.trim()`: the longest infix of `s` that neither starts nor ends with white space. */
  function Trim(s: string): (r: string)
    ensures |r| <= |s|
    ensures r == [] || (!IsSpace(r[0]) && !IsSpace(r[|r| - 1]))
    ensures r == [] <==> forall i :: 0 <= i < |s| ==> IsSpace(s[i])
    ensures exists i, j :: OuterSpaces(s, i, j) && r == s[i..j]
  {
    var i := LeadingSpaces(s);
    var t := s[i..];
    var j := i + |t| - TrailingSpaces(t);
    TrimWindow(s, i, t, j);
    t[..|t| - TrailingSpaces(t)]
  }

  lemma TrimWindow(s: string, i: nat, t: string, j: int)
    requires i == LeadingSpaces(s) && t == s[i..] && j == i + |t| - TrailingSpaces(t)
    ensures OuterSpaces(s, i, j) && t[..|t| - TrailingSpaces(t)] == s[i..j]
  {
    forall k | j <= k < |s| ensures IsSpace(s[k]) {
      assert s[k] == t[k - i];
    }
  }

  /** Trimming is idempotent, and a string without outer white space is its own trim. */
  lemma TrimFixedPoint(s: string)
    requires s == [] || (!IsSpace(s[0]) && !IsSpace(s[|s| - 1]))
    ensures Trim(s) == s
  {
    if s != [] {
      assert LeadingSpaces(s) == 0;
      assert TrailingSpaces(s) == 0;
    }
  }

  lemma TrimIdempotent(s: string)
    ensures Trim(Trim(s)) == Trim(s)
  {
    TrimFixedPoint(Trim(s));
  }

  /** JavaScript truthiness of a string form field: present and not the empty string. */
  predicate Truthy(f: Option<string>) {
    f.Some? && f.value != ""
  }

  /** `field || null`: an absent or empty field is stored as NULL. */
  function OrNull(f: Option<string>): (r: Option<string>)
    ensures r.None? <==> !Truthy(f)
    ensures r.Some? ==> r == f && r.value != ""
  {
    if Truthy(f) then f else None
  }

  /** `(field || '').trim()`: an absent field reads as the empty string. */
  function Trimmed(f: Option<string>): (r: string)
    ensures Truthy(Some(r)) ==> Truthy(f)
  {
    Trim(f.GetOr(""))
  }

  predicate IsDigit(c: char) {
    '0' <= c <= '9'
  }

  /** `/^\d{4}$/.test(s)`: exactly four ASCII digits and nothing else, so no white space either. */
  predicate IsFourDigits(s: string): (b: bool)
    ensures b ==> Trim(s) == s && Truthy(Some(s))
  {
    |s| == 4 && forall i :: 0 <= i < |s| ==> IsDigit(s[i])
  }

  /** Byte-wise text order: `a` is a prefix of `b`, or the first differing character of `a` is smaller. */
  predicate LexLe(a: string, b: string)
    decreases |a|
  {
    a == [] || (b != [] && (a[0] < b[0] || (a[0] == b[0] && LexLe(a[1..], b[1..]))))
  }

  lemma {:induction false} LexLeTotal(a: string, b: string)
    ensures LexLe(a, b) || LexLe(b, a)
    decreases |a|
  {
    if a != [] && b != [] && a[0] == b[0] {
      LexLeTotal(a[1..], b[1..]);
    }
  }

  lemma {:induction false} LexLeTransitive(a: string, b: string, c: string)
    requires LexLe(a, b) && LexLe(b, c)
    ensures LexLe(a, c)
    decreases |a|
  {
    if a != [] && a[0] == b[0] && b[0] == c[0] {
      LexLeTransitive(a[1..], b[1..], c[1..]);
    }
  }

  lemma {:induction false} LexLeAntisymmetric(a: string, b: string)
    requires LexLe(a, b) && LexLe(b, a)
    ensures a == b
    decreases |a|
  {
    if a != [] {
      LexLeAntisymmetric(a[1..], b[1..]);
      assert a == [a[0]] + a[1..] && b == [b[0]] + b[1..];
    }
  }

  /** The group codes named as examples of the format: "3011" passes, "301" and "ABCD" do not. */
  lemma FourDigitExamples()
    ensures IsFourDigits("3011")
    ensures !IsFourDigits("301") && !IsFourDigits("ABCD")
  {
    assert !IsDigit("ABCD"[0]);
  }
}
