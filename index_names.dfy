/**
 * The name check shared by the `createIndex` and `deleteIndex` mutations:
 * a null, empty or blank name is refused before the index service is
 * called, and any other name reaches the service trimmed.
 */
module IndexNames {
  import opened Wrappers
  import opened JavaLang

  /** The handlers' guard: `name == null || name.isEmpty() || name.isBlank()`. */
  function Refused(name: Option<string>): (b: bool)
    ensures b <==> name.None? || IsBlank(name.value)
  {
    name.None? || |name.value| == 0 || IsBlank(name.value)
  }

  /**
   * The name the index service receives, or `None` when the handler
   * returns `false` without calling it.
   */
  function ForwardedName(name: Option<string>): (r: Option<string>)
    ensures r.None? <==> name.None? || IsBlank(name.value)
    ensures r.Some? ==> exists i :: TrimmedAt(name.value, r.value, i)
    ensures r.Some? && r.value != [] ==> !IsTrimmable(r.value[0]) && !IsTrimmable(r.value[|r.value| - 1])
  {
    if Refused(name) then None else Some(Trim(name.value))
  }

  /**
   * A control character that is neither whitespace for `isBlank` nor
   * kept by `trim`: U+0000..U+0008 and U+000E..U+001B.
   */
  predicate IsHiddenControl(c: char) {
    IsTrimmable(c) && !IsWhitespace(c)
  }

  /**
   * A non-blank name without hidden control characters reaches the service
   * non-empty, and forwarding the forwarded name again changes nothing.
   */
  lemma ForwardedNameStable(name: string)
    requires !IsBlank(name)
    requires forall k :: 0 <= k < |name| ==> !IsHiddenControl(name[k])
    ensures ForwardedName(Some(name)).Some?
    ensures var r := ForwardedName(Some(name)).value;
            r != [] && !IsBlank(r) && ForwardedName(Some(r)) == Some(r)
  {
    var r := Trim(name);
    TrimIdempotent(name);
    var k :| 0 <= k < |name| && !IsWhitespace(name[k]);
    assert !IsTrimmable(name[k]) by {
      assert !IsHiddenControl(name[k]);
    }
    var j := TrimKeeps(name, k);
    assert !IsBlank(r) by {
      assert r[j] == name[k];
    }
    assert !Refused(Some(r));
  }

  /**
   * The guard and `trim` disagree on hidden control characters: the name
   * U+0001 alone is not blank, so it passes the guard, yet it trims to the empty
   * string, which is what the index service then receives.
   */
  lemma ControlOnlyNameForwardedEmpty()
    ensures ForwardedName(Some("\U{1}")) == Some("")
  {
    assert !IsWhitespace('\U{1}');
    assert TrimStart("\U{1}") == TrimStart("\U{1}"[1..]);
  }

  /**
   * The other half of the disagreement: the Unicode spaces above U+0020
   * count as whitespace for the guard but are kept by `trim`, so the name
   * " \U{3000}a" reaches the index service with its ideographic space.
   */
  lemma WideSpaceKeptByTrim()
    ensures ForwardedName(Some(" \U{3000}a")) == Some("\U{3000}a")
  {
    var name, kept := " \U{3000}a", "\U{3000}a";
    assert !IsBlank(name) by {
      assert !IsWhitespace(name[2]);
    }
    assert TrimStart(name) == kept by {
      assert name[1..] == kept;
      assert TrimStart(kept) == kept;
    }
    assert TrimEnd(kept) == kept by {
      assert !IsTrimmable(kept[1]);
    }
    assert Trim(name) == kept;
  }
}
