/**
 * The pieces of `java.lang` the handlers rely on: 32-bit `Integer`
 * arguments and the `String` methods `isEmpty`, `isBlank`, `trim` and
 * `contains`. A Java string is modelled as its sequence of code points.
 */
module JavaLang {

  /** A Java `int` (two's complement, 32 bits). */
  newtype Int32 = x: int | -0x8000_0000 <= x < 0x8000_0000

  /**
   * `Character.isWhitespace`: the ASCII controls TAB, LF, VT, FF, CR and
   * FS..US, and the Unicode space, line and paragraph separators other than
   * the non-breaking spaces U+00A0, U+2007 and U+202F.
   */
  function IsWhitespace(c: char): (b: bool)
    ensures c == ' ' || c == '\t' || c == '\n' || c == '\r' ==> b
    ensures c == '\U{A0}' || c == '\U{2007}' || c == '\U{202F}' ==> !b
    ensures b ==> c as int <= 0x3000
  {
    var u := c as int;
    || 0x09 <= u <= 0x0D
    || 0x1C <= u <= 0x20
    || u == 0x1680
    || 0x2000 <= u <= 0x2006
    || 0x2008 <= u <= 0x200A
    || u == 0x2028
    || u == 0x2029
    || u == 0x205F
    || u == 0x3000
  }

  /** `String.isBlank`: empty, or whitespace only. */
  function IsBlank(s: string): (b: bool)
    ensures s == [] ==> b
    ensures forall k :: 0 <= k < |s| && !IsWhitespace(s[k]) ==> !b
  {
    forall i :: 0 <= i < |s| ==> IsWhitespace(s[i])
  }

  /** What `String.trim` strips at either end: every code unit up to U+0020. */
  predicate IsTrimmable(c: char) {
    c as int <= 0x20
  }

  /** `s` without its leading trimmable characters. */
  function TrimStart(s: string): (r: string)
    ensures |r| <= |s| && r == s[|s| - |r|..]
    ensures forall k :: 0 <= k < |s| - |r| ==> IsTrimmable(s[k])
    ensures r == [] || !IsTrimmable(r[0])
  {
    if |s| > 0 && IsTrimmable(s[0]) then TrimStart(s[1..]) else s
  }

  /** `s` without its trailing trimmable characters. */
  function TrimEnd(s: string): (r: string)
    ensures |r| <= |s| && r == s[..|r|]
    ensures forall k :: |r| <= k < |s| ==> IsTrimmable(s[k])
    ensures r == [] || !IsTrimmable(r[|r| - 1])
  {
    if |s| > 0 && IsTrimmable(s[|s| - 1]) then TrimEnd(s[..|s| - 1]) else s
  }

  /** `t` occurs in `s` at position `i`. */
  predicate OccursAt(s: string, t: string, i: int) {
    0 <= i && i + |t| <= |s| && s[i..i + |t|] == t
  }

  /** `r` is `s[i..]` cut down by trimmable characters only, on both sides. */
  predicate TrimmedAt(s: string, r: string, i: int) {
    && OccursAt(s, r, i)
    && (forall k :: 0 <= k < i ==> IsTrimmable(s[k]))
    && (forall k :: i + |r| <= k < |s| ==> IsTrimmable(s[k]))
  }

  /** Cutting a trimmable prefix and then a trimmable suffix leaves a trimmed slice. */
  lemma TrimmedParts(s: string, t: string, r: string)
    requires |t| <= |s| && t == s[|s| - |t|..]
    requires forall k :: 0 <= k < |s| - |t| ==> IsTrimmable(s[k])
    requires |r| <= |t| && r == t[..|r|]
    requires forall k :: |r| <= k < |t| ==> IsTrimmable(t[k])
    requires t == [] || !IsTrimmable(t[0])
    requires r == [] || !IsTrimmable(r[|r| - 1])
    ensures TrimmedAt(s, r, |s| - |t|)
    ensures r == [] || (!IsTrimmable(r[0]) && !IsTrimmable(r[|r| - 1]))
  {
    var i := |s| - |t|;
    assert r == [] || r[0] == t[0];
    assert s[i..i + |r|] == r;
    forall k | i + |r| <= k < |s|
      ensures IsTrimmable(s[k])
    {
      assert s[k] == t[k - i];
    }
  }

  /**
   * `String.trim`: the slice of `s` left once every trimmable character
   * is removed from both ends.
   */
  function Trim(s: string): (r: string)
    ensures exists i :: TrimmedAt(s, r, i)
    ensures r == [] || (!IsTrimmable(r[0]) && !IsTrimmable(r[|r| - 1]))
  {
    var t := TrimStart(s);
    var r := TrimEnd(t);
    TrimmedParts(s, t, r);
    r
  }

  /** Trimming a string that is already trimmed changes nothing. */
  lemma TrimIdempotent(s: string)
    ensures Trim(Trim(s)) == Trim(s)
  {
    var r := Trim(s);
    assert r == [] || !IsTrimmable(r[0]);
    assert TrimStart(r) == r;
    assert TrimEnd(r) == r;
  }

  /** `trim` keeps every character it cannot strip, at its own place. */
  lemma TrimKeeps(s: string, k: int) returns (j: nat)
    requires 0 <= k < |s| && !IsTrimmable(s[k])
    ensures j < |Trim(s)| && Trim(s)[j] == s[k]
  {
    var t := TrimStart(s);
    var i := |s| - |t|;
    assert t[k - i] == s[k];
    var r := TrimEnd(t);
    assert r[k - i] == t[k - i];
    j := k - i;
  }

  /** `s` starts with `t`. */
  predicate StartsWith(s: string, t: string) {
    |t| <= |s| && s[..|t|] == t
  }

  /** `String.contains`: `t` occurs in `s` as a contiguous substring. */
  function Contains(s: string, t: string): (b: bool)
    ensures b ==> |t| <= |s|
    ensures StartsWith(s, t) ==> b
    decreases |s|
  {
    StartsWith(s, t) || (|s| > 0 && Contains(s[1..], t))
  }

  /**
   * `Contains` agrees with its declarative reading: there is a position
   * where `t` occurs in `s`.
   */
  lemma {:induction false} ContainsIff(s: string, t: string)
    ensures Contains(s, t) <==> exists i :: OccursAt(s, t, i)
    decreases |s|
  {
    if StartsWith(s, t) {
      assert OccursAt(s, t, 0);
    } else if |s| > 0 {
      ContainsIff(s[1..], t);
      if Contains(s[1..], t) {
        var i :| OccursAt(s[1..], t, i);
        assert s[i + 1..i + 1 + |t|] == s[1..][i..i + |t|];
        assert OccursAt(s, t, i + 1);
      } else {
        forall i | 0 <= i
          ensures !OccursAt(s, t, i)
        {
          if i == 0 {
            if |t| <= |s| {
              assert s[..|t|] == s[0..0 + |t|];
            }
          } else if i + |t| <= |s| {
            var tail := s[1..];
            assert |tail| == |s| - 1;
            assert forall j :: 1 <= j < |s| ==> tail[j - 1] == s[j];
            assert tail[i - 1..i - 1 + |t|] == s[i..i + |t|];
            assert !OccursAt(tail, t, i - 1);
          }
        }
      }
    } else {
      assert |t| > 0;
    }
  }

  /** Every string contains the empty string and itself. */
  lemma ContainsEmptyAndSelf(s: string)
    ensures Contains(s, "") && Contains(s, s)
  {
    assert StartsWith(s, "");
    assert StartsWith(s, s);
  }
}
