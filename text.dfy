/**
 The three string builtins the monitor relies on, with Python's semantics:
 the substring test `p in s`, `s.replace(p, "")` and `s.strip()`.
 */
module Text {

  /** Python's `str.isspace` for a single character (the characters `strip()` removes). */
  predicate IsSpace(c: char)
  {
    var n := c as int;
    (9 <= n <= 13) || (28 <= n <= 32) || n == 0x85 || n == 0xA0 || n == 0x1680
    || (0x2000 <= n <= 0x200A) || n == 0x2028 || n == 0x2029 || n == 0x202F
    || n == 0x205F || n == 0x3000
  }

  /** Leading whitespace removed. */
  function TrimStart(s: string): string
  {
    if s != [] && IsSpace(s[0]) then TrimStart(s[1..]) else s
  }

  /** Trailing whitespace removed. */
  function TrimEnd(s: string): string
  {
    if s != [] && IsSpace(s[|s| - 1]) then TrimEnd(s[..|s| - 1]) else s
  }

  /** Python's `s.strip()`: whitespace dropped at both ends. */
  function Strip(s: string): string
  {
    TrimEnd(TrimStart(s))
  }

  /** A string is stripped when it has no whitespace at either end. */
  predicate IsStripped(s: string)
  {
    s == [] || (!IsSpace(s[0]) && !IsSpace(s[|s| - 1]))
  }

  /** Every character of `s` is whitespace. */
  predicate AllSpace(s: string)
  {
    forall k :: 0 <= k < |s| ==> IsSpace(s[k])
  }

  /** TrimStart keeps a suffix that does not start with whitespace, and drops whitespace only. */
  lemma {:induction false} TrimStartShape(s: string)
    ensures |TrimStart(s)| <= |s| && TrimStart(s) == s[|s| - |TrimStart(s)|..]
    ensures TrimStart(s) != [] ==> !IsSpace(TrimStart(s)[0])
    ensures AllSpace(s[..|s| - |TrimStart(s)|])
  {
    if s != [] && IsSpace(s[0]) {
      TrimStartShape(s[1..]);
      var n := |s| - |TrimStart(s)|;
      assert s[..n] == [s[0]] + s[1..][..n - 1];
      assert s[1..][|s| - 1 - |TrimStart(s)|..] == s[n..];
    }
  }

  /** TrimEnd keeps a prefix that does not end with whitespace, and drops whitespace only. */
  lemma {:induction false} TrimEndShape(s: string)
    ensures |TrimEnd(s)| <= |s| && TrimEnd(s) == s[..|TrimEnd(s)|]
    ensures TrimEnd(s) != [] ==> !IsSpace(TrimEnd(s)[|TrimEnd(s)| - 1])
    ensures AllSpace(s[|TrimEnd(s)|..])
  {
    if s != [] && IsSpace(s[|s| - 1]) {
      var s' := s[..|s| - 1];
      TrimEndShape(s');
      assert s'[..|TrimEnd(s')|] == s[..|TrimEnd(s)|];
      assert s[|TrimEnd(s)|..] == s'[|TrimEnd(s')|..] + [s[|s| - 1]];
    }
  }

  /**
   `s == pre + Strip(s) + suf` where `pre` and `suf` are whitespace: `Strip` keeps
   an infix of `s`, without whitespace at its ends, and drops nothing else.
   */
  lemma StripIsInfix(s: string)
    ensures IsStripped(Strip(s))
    ensures exists i, j :: 0 <= i <= j <= |s| && Strip(s) == s[i..j]
                           && AllSpace(s[..i]) && AllSpace(s[j..])
  {
    var t := TrimStart(s);
    TrimStartShape(s);
    TrimEndShape(t);
    var i := |s| - |t|;
    var j := i + |TrimEnd(t)|;
    assert t[|TrimEnd(t)|..] == s[j..];
    assert Strip(s) == s[i..j];
    if t != [] && Strip(s) != [] {
      assert TrimEnd(t)[0] == t[0];
    }
  }

  /** Stripping never lengthens a string and always leaves it stripped. */
  lemma StripShape(s: string)
    ensures |Strip(s)| <= |s| && IsStripped(Strip(s))
  {
    StripIsInfix(s);
  }

  /** A string strips to nothing exactly when it is all whitespace. */
  lemma StripEmptyIff(s: string)
    ensures Strip(s) == [] <==> AllSpace(s)
  {
    StripIsInfix(s);
    var i, j :| 0 <= i <= j <= |s| && Strip(s) == s[i..j] && AllSpace(s[..i]) && AllSpace(s[j..]);
    if Strip(s) == [] {
      forall k | 0 <= k < |s| ensures IsSpace(s[k]) {
        if k < i {
          assert s[..i][k] == s[k];
        } else {
          assert s[j..][k - j] == s[k];
        }
      }
    } else {
      assert !IsSpace(s[i]);
    }
  }

  /** A stripped string has nothing for either trim to remove. */
  lemma StrippedIsFixed(s: string)
    requires IsStripped(s)
    ensures Strip(s) == s
  {
    assert TrimStart(s) == s;
    assert TrimEnd(s) == s;
  }

  /** Stripping is idempotent, and the strings it leaves alone are exactly the stripped ones. */
  lemma StripStripped(s: string)
    ensures IsStripped(s) <==> Strip(s) == s
    ensures Strip(Strip(s)) == Strip(s)
  {
    StripShape(s);
    if IsStripped(s) {
      StrippedIsFixed(s);
    }
    StrippedIsFixed(Strip(s));
  }

  /** Python's `p in s`. */
  predicate Contains(s: string, p: string)
    decreases |s|
  {
    |p| <= |s| && (s[..|p|] == p || Contains(s[1..], p))
  }

  /** `p` occurs in `s` starting at index `i`. */
  predicate OccursAt(s: string, p: string, i: int)
  {
    0 <= i && i + |p| <= |s| && s[i..i + |p|] == p
  }

  /** `Contains` agrees with the positional definition of a substring occurrence. */
  lemma {:induction false} ContainsIff(s: string, p: string)
    ensures Contains(s, p) <==> exists i :: OccursAt(s, p, i)
    decreases |s|
  {
    if |p| <= |s| {
      if s[..|p|] == p {
        assert OccursAt(s, p, 0);
      } else {
        ContainsIff(s[1..], p);
        if exists i :: OccursAt(s, p, i) {
          var i :| OccursAt(s, p, i);
          assert i != 0;
          assert s[1..][i - 1..i - 1 + |p|] == s[i..i + |p|];
          assert OccursAt(s[1..], p, i - 1);
        }
        if Contains(s[1..], p) {
          var i :| OccursAt(s[1..], p, i);
          assert s[1..][i..i + |p|] == s[i + 1..i + 1 + |p|];
          assert OccursAt(s, p, i + 1);
        }
      }
    }
  }

  /** An occurrence inside an infix of `s` is an occurrence in `s`. */
  lemma ContainsInfix(s: string, i: nat, j: nat, p: string)
    requires i <= j <= |s|
    requires Contains(s[i..j], p)
    ensures Contains(s, p)
  {
    ContainsIff(s[i..j], p);
    var k :| OccursAt(s[i..j], p, k);
    assert k + |p| <= j - i;
    forall m | 0 <= m < |p| ensures s[i + k..i + k + |p|][m] == p[m] {
      assert s[i..j][k..k + |p|][m] == p[m];
    }
    assert OccursAt(s, p, i + k);
    ContainsIff(s, p);
  }

  /** A string that contains `p` contains every prefix of `p`. */
  lemma {:induction false} ContainsPrefix(s: string, p: string, q: string)
    requires q <= p && Contains(s, p)
    ensures Contains(s, q)
    decreases |s|
  {
    if s[..|p|] != p {
      ContainsPrefix(s[1..], p, q);
    } else {
      assert s[..|q|] == p[..|q|];
    }
  }

  /** A string that lacks the first character of `p` does not contain `p`. */
  lemma MissingFirstChar(s: string, p: string)
    requires p != [] && p[0] !in s
    ensures !Contains(s, p)
  {
    ContainsIff(s, p);
  }

  /**
   Python's `s.replace(p, "")`: occurrences are found left to right and do not
   overlap; an empty pattern leaves `s` as it is.
   */
  function RemoveAll(s: string, p: string): string
    decreases |s|
  {
    if p == [] || |s| < |p| then s
    else if p <= s then RemoveAll(s[|p|..], p)
    else [s[0]] + RemoveAll(s[1..], p)
  }

  /** Removing never lengthens a string, and removing an absent pattern changes nothing. */
  lemma {:induction false} RemoveAllShape(s: string, p: string)
    ensures |RemoveAll(s, p)| <= |s|
    ensures !Contains(s, p) ==> RemoveAll(s, p) == s
    decreases |s|
  {
    if p == [] || |s| < |p| {
    } else if s[..|p|] == p {
      RemoveAllShape(s[|p|..], p);
    } else {
      RemoveAllShape(s[1..], p);
    }
  }

  /** An occurrence at `j + 1` in `s` is an occurrence at `j` in `s[1..]`, and back. */
  lemma OccursShift(s: string, p: string, j: nat)
    requires s != []
    ensures OccursAt(s, p, j + 1) <==> OccursAt(s[1..], p, j)
  {
    if j + 1 + |p| <= |s| {
      assert s[1..][j..j + |p|] == s[j + 1..j + 1 + |p|];
    }
  }

  /** Where `p` does not start the text, removal keeps the first character and goes on. */
  lemma RemoveAllKeep(s: string, p: string)
    requires p != [] && |p| <= |s| && !OccursAt(s, p, 0)
    ensures RemoveAll(s, p) == [s[0]] + RemoveAll(s[1..], p)
  {
  }

  /** No occurrence starts before `i` in `s` exactly when none starts before `i - 1` in `s[1..]`. */
  lemma NoEarlierShift(s: string, p: string, i: nat)
    requires 0 < i <= |s|
    requires forall j :: 0 <= j < i ==> !OccursAt(s, p, j)
    ensures forall j :: 0 <= j < i - 1 ==> !OccursAt(s[1..], p, j)
  {
    forall j | 0 <= j < i - 1 ensures !OccursAt(s[1..], p, j) {
      OccursShift(s, p, j);
    }
  }

  /** An occurrence at the very start is dropped and removal resumes after it. */
  lemma RemoveAllAtStart(s: string, p: string)
    requires p != [] && OccursAt(s, p, 0)
    ensures RemoveAll(s, p) == s[..0] + RemoveAll(s[0 + |p|..], p)
  {
    assert s[..|p|] == p && s[0 + |p|..] == s[|p|..];
    assert s[..0] + RemoveAll(s[|p|..], p) == RemoveAll(s[|p|..], p);
  }

  /** Dropping the first character shifts every later suffix by one. */
  lemma ShiftedSuffix(s: string, i: nat, n: nat)
    requires 0 < i && i + n <= |s|
    ensures s[1..][i - 1 + n..] == s[i + n..]
  {
  }

  /** Putting the first character back in front of a shifted prefix restores the prefix. */
  lemma ConsPrefix(s: string, i: nat, rest: string)
    requires 0 < i <= |s|
    ensures [s[0]] + (s[1..][..i - 1] + rest) == s[..i] + rest
  {
    assert [s[0]] + s[1..][..i - 1] == s[..i];
  }

  /** Rewriting through one kept character: `a = c + b` and `b = x + r` give `a = y + r` when `c + x = y`. */
  lemma ConsChain(a: string, b: string, c: char, x: string, y: string, r: string)
    requires a == [c] + b && b == x + r && [c] + (x + r) == y + r
    ensures a == y + r
  {
  }

  /**
   For a first occurrence past the start, the occurrence moves one place left in
   `s[1..]` and no earlier occurrence appears there.
   */
  lemma RemoveAllFirstTail(s: string, p: string, i: nat)
    requires 0 < i && OccursAt(s, p, i)
    requires forall j :: 0 <= j < i ==> !OccursAt(s, p, j)
    ensures OccursAt(s[1..], p, i - 1)
    ensures forall j :: 0 <= j < i - 1 ==> !OccursAt(s[1..], p, j)
  {
    OccursShift(s, p, i - 1);
    NoEarlierShift(s, p, i);
  }

  /** The first-occurrence equation for `s` follows from the one for `s[1..]` one index earlier. */
  lemma RemoveAllFirstStep(s: string, p: string, i: nat)
    requires p != [] && 0 < i && i + |p| <= |s| && !OccursAt(s, p, 0)
    requires RemoveAll(s[1..], p) == s[1..][..i - 1] + RemoveAll(s[1..][i - 1 + |p|..], p)
    ensures RemoveAll(s, p) == s[..i] + RemoveAll(s[i + |p|..], p)
  {
    var rest := RemoveAll(s[i + |p|..], p);
    RemoveAllKeep(s, p);
    ShiftedSuffix(s, i, |p|);
    assert RemoveAll(s[1..], p) == s[1..][..i - 1] + rest;
    ConsPrefix(s, i, rest);
    ConsChain(RemoveAll(s, p), RemoveAll(s[1..], p), s[0], s[1..][..i - 1], s[..i], rest);
  }

  /**
   Removal scans left to right: everything before the first occurrence is kept, the
   occurrence is dropped, and removal resumes right after it.
   */
  lemma {:induction false} RemoveAllFirst(s: string, p: string, i: nat)
    requires p != [] && OccursAt(s, p, i)
    requires forall j :: 0 <= j < i ==> !OccursAt(s, p, j)
    ensures RemoveAll(s, p) == s[..i] + RemoveAll(s[i + |p|..], p)
    decreases i
  {
    if i == 0 {
      RemoveAllAtStart(s, p);
    } else {
      RemoveAllFirstTail(s, p, i);
      var t := s[1..];
      RemoveAllFirst(t, p, i - 1);
      assert RemoveAll(t, p) == t[..i - 1] + RemoveAll(t[i - 1 + |p|..], p);
      RemoveAllFirstStep(s, p, i);
    }
  }

  /** A pattern removed from itself leaves nothing, and nothing stays nothing. */
  lemma RemoveAllSelf(p: string)
    ensures RemoveAll(p, p) == ""
    ensures RemoveAll("", p) == ""
  {
  }

  /** Removing a non-empty pattern that occurs shortens the string by at least its length. */
  lemma {:induction false} RemoveAllShrinks(s: string, p: string)
    requires p != [] && Contains(s, p)
    ensures |RemoveAll(s, p)| <= |s| - |p|
    decreases |s|
  {
    if s[..|p|] != p {
      RemoveAllShrinks(s[1..], p);
    } else {
      RemoveAllShape(s[|p|..], p);
    }
  }
}
