/**
 * The string trimming the task list applies to every title it accepts:
 * JavaScript's `String.prototype.trim`, which removes leading and trailing
 * WhiteSpace and LineTerminator code points (ECMAScript, sections 12.2 and 12.3).
 */
module JsText {

  /** The code points `trim` removes: TAB, LF, VT, FF, CR, SPACE, NBSP, the
      Unicode space separators (Zs), LINE SEPARATOR, PARAGRAPH SEPARATOR and
      the byte order mark. */
  predicate IsTrimmable(c: char) {
    var n := c as int;
    (0x09 <= n <= 0x0D) || n == 0x20 || n == 0xA0 || n == 0x1680
    || (0x2000 <= n <= 0x200A) || n == 0x2028 || n == 0x2029
    || n == 0x202F || n == 0x205F || n == 0x3000 || n == 0xFEFF
  }

  /** Every code point `trim` removes is a single UTF-16 code unit, and among
      the ASCII characters it removes exactly space and TAB through CR. */
  lemma TrimmableCodeUnits(c: char)
    ensures IsTrimmable(c) ==> c as int < 0x1_0000
    ensures c as int < 0x80 ==> (IsTrimmable(c) <==> c == ' ' || '\t' <= c <= '\r')
  {
  }

  /** `s` with its leading trimmable code points removed: a suffix of `s`. */
  function TrimStart(s: string): (r: string)
    ensures |r| <= |s| && r == s[|s| - |r|..]
    ensures forall i :: 0 <= i < |s| - |r| ==> IsTrimmable(s[i])
    ensures r != [] ==> !IsTrimmable(r[0])
  {
    if s != [] && IsTrimmable(s[0]) then TrimStart(s[1..]) else s
  }

  /** `s` with its trailing trimmable code points removed: a prefix of `s`. */
  function TrimEnd(s: string): (r: string)
    ensures |r| <= |s| && r == s[..|r|]
    ensures forall i :: |r| <= i < |s| ==> IsTrimmable(s[i])
    ensures r != [] ==> !IsTrimmable(r[|r| - 1])
  {
    if s != [] && IsTrimmable(s[|s| - 1]) then TrimEnd(s[..|s| - 1]) else s
  }

  /** `s.trim()`. The result is empty exactly when `s` is blank, and otherwise
      neither starts nor ends with a trimmable code point. */
  function Trim(s: string): (r: string)
    ensures |r| <= |s|
    ensures r == [] <==> forall i :: 0 <= i < |s| ==> IsTrimmable(s[i])
    ensures r != [] ==> !IsTrimmable(r[0]) && !IsTrimmable(r[|r| - 1])
  {
    TrimEnd(TrimStart(s))
  }

  /** What `trim` keeps is the infix of `s` between the stripped ends, and
      everything it drops is trimmable. */
  lemma TrimIsInfix(s: string)
    ensures var k := |s| - |TrimStart(s)|;
            k + |Trim(s)| <= |s| && Trim(s) == s[k..k + |Trim(s)|]
    ensures var k := |s| - |TrimStart(s)|;
            forall i :: 0 <= i < |s| && !(k <= i < k + |Trim(s)|) ==> IsTrimmable(s[i])
  {
    var u := TrimStart(s);
    var k := |s| - |u|;
    var r := TrimEnd(u);
    assert u == s[k..];
    assert r == u[..|r|];
    forall i | k + |r| <= i < |s| ensures IsTrimmable(s[i]) {
      assert s[i] == u[i - k];
    }
  }

  /** A string with no trimmable code point at either end is its own trim. */
  lemma TrimFixed(s: string)
    requires s == [] || (!IsTrimmable(s[0]) && !IsTrimmable(s[|s| - 1]))
    ensures Trim(s) == s
  {
  }

  /** Trimming twice is trimming once. */
  lemma TrimIdempotent(s: string)
    ensures Trim(Trim(s)) == Trim(s)
  {
    TrimFixed(Trim(s));
  }
}
