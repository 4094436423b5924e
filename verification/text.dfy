/**
  The handful of Python `str` operations the mailer relies on: `strip`,
  `lower`, `in` (substring test), `split(sep)[-1]` / `rsplit(sep, 1)[-1]`
  and `replace`.
 */
module Text {

  /** Python's `str.isspace` for one character (the characters `strip()` removes). */
  predicate IsSpace(c: char)
  {
    || c == ' ' || ('\t' <= c <= '\r') || ('\U{1C}' <= c <= '\U{1F}')
    || c == '\U{85}' || c == '\U{A0}' || c == '\U{1680}' || ('\U{2000}' <= c <= '\U{200A}')
    || c == '\U{2028}' || c == '\U{2029}' || c == '\U{202F}' || c == '\U{205F}' || c == '\U{3000}'
  }

  /** `s` with its leading whitespace removed. */
  function TrimStart(s: string): (r: string)
    ensures |r| <= |s| && r == s[|s| - |r|..]
    ensures forall k :: 0 <= k < |s| - |r| ==> IsSpace(s[k])
    ensures |r| > 0 ==> !IsSpace(r[0])
    decreases |s|
  {
    if |s| > 0 && IsSpace(s[0]) then TrimStart(s[1..]) else s
  }

  /** `s` with its trailing whitespace removed. */
  function TrimEnd(s: string): (r: string)
    ensures |r| <= |s| && r == s[..|r|]
    ensures forall k :: |r| <= k < |s| ==> IsSpace(s[k])
    ensures |r| > 0 ==> !IsSpace(r[|r| - 1])
    decreases |s|
  {
    if |s| > 0 && IsSpace(s[|s| - 1]) then TrimEnd(s[..|s| - 1]) else s
  }

  /** How many whitespace characters open `s`: the first non-space sits at this index. */
  function Lead(s: string): (n: nat)
    ensures n <= |s|
    ensures forall k :: 0 <= k < n ==> IsSpace(s[k])
    ensures n < |s| ==> !IsSpace(s[n])
  {
    |s| - |TrimStart(s)|
  }

  /**
    Python's `s.strip()`: the slice of `s` that starts at its first
    non-space character and ends at its last one; everything cut off is
    whitespace, and an all-space string strips to "".
   */
  function Strip(s: string): (r: string)
    ensures |r| <= |s|
    ensures |r| > 0 ==> !IsSpace(r[0]) && !IsSpace(r[|r| - 1])
    ensures r == "" <==> forall k :: 0 <= k < |s| ==> IsSpace(s[k])
    ensures Lead(s) + |r| <= |s|
    ensures forall k :: 0 <= k < |r| ==> r[k] == s[Lead(s) + k]
    ensures forall k :: Lead(s) + |r| <= k < |s| ==> IsSpace(s[k])
  {
    TrimKeeps(s);
    TrimTail(s);
    TrimEnd(TrimStart(s))
  }

  /** Trimming both ends keeps the characters of `s` from its first non-space on. */
  lemma TrimKeeps(s: string)
    ensures var r := TrimEnd(TrimStart(s));
      Lead(s) + |r| <= |s| && forall k :: 0 <= k < |r| ==> r[k] == s[Lead(s) + k]
  {
    var t := TrimStart(s);
    var r := TrimEnd(t);
    assert Lead(s) == |s| - |t|;
    forall k | 0 <= k < |r| ensures r[k] == s[Lead(s) + k] {
      assert r[k] == t[k];
    }
  }

  /** What trimming both ends cuts off after the kept characters is whitespace. */
  lemma TrimTail(s: string)
    ensures var r := TrimEnd(TrimStart(s));
      forall k :: Lead(s) + |r| <= k < |s| ==> IsSpace(s[k])
  {
    var t := TrimStart(s);
    var r := TrimEnd(t);
    var i := |s| - |t|;
    assert Lead(s) == i;
    forall k | i + |r| <= k < |s| ensures IsSpace(s[k]) {
      assert s[k] == t[k - i];
    }
  }

  /** A string with no whitespace at either end is its own strip. */
  lemma {:induction false} StripKeepsTrimmed(s: string)
    requires |s| > 0 && !IsSpace(s[0]) && !IsSpace(s[|s| - 1])
    ensures Strip(s) == s
  {
    assert TrimStart(s) == s;
    assert TrimEnd(s) == s;
  }

  /** Python's `s.lstrip(c)` for a single character `c`. */
  function TrimCharStart(s: string, c: char): (r: string)
    ensures |r| <= |s| && r == s[|s| - |r|..]
    ensures forall k :: 0 <= k < |s| - |r| ==> s[k] == c
    ensures |r| > 0 ==> r[0] != c
    decreases |s|
  {
    if |s| > 0 && s[0] == c then TrimCharStart(s[1..], c) else s
  }

  /** Python's `s.rstrip(c)` for a single character `c`. */
  function TrimCharEnd(s: string, c: char): (r: string)
    ensures |r| <= |s| && r == s[..|r|]
    ensures forall k :: |r| <= k < |s| ==> s[k] == c
    ensures |r| > 0 ==> r[|r| - 1] != c
    decreases |s|
  {
    if |s| > 0 && s[|s| - 1] == c then TrimCharEnd(s[..|s| - 1], c) else s
  }

  /** Python's `s.strip(c)` for a single character `c`: every `c` at either end removed. */
  function StripChar(s: string, c: char): (r: string)
    ensures |r| <= |s|
    ensures |r| > 0 ==> r[0] != c && r[|r| - 1] != c
  {
    var t := TrimCharStart(s, c);
    var r := TrimCharEnd(t, c);
    assert |r| > 0 ==> r[0] == t[0];
    r
  }

  /** Stripping `c` from a string that neither starts nor ends with `c` leaves it alone. */
  lemma StripCharKeeps(s: string, c: char)
    requires |s| == 0 || (s[0] != c && s[|s| - 1] != c)
    ensures StripChar(s, c) == s
  {
    assert TrimCharStart(s, c) == s;
    assert TrimCharEnd(s, c) == s;
  }

  lemma TrimCharStartCons(x: string, c: char)
    ensures TrimCharStart([c] + x, c) == TrimCharStart(x, c)
  {
    assert ([c] + x)[1..] == x;
  }

  lemma TrimCharEndSnoc(x: string, c: char)
    ensures TrimCharEnd(x + [c], c) == TrimCharEnd(x, c)
  {
    assert (x + [c])[..|x|] == x;
  }

  /** Stripping `c` from `s` wrapped in one `c` on each side gives back `s`, when `s` itself has no `c` at its ends. */
  lemma StripCharWrapped(s: string, c: char)
    requires |s| == 0 || (s[0] != c && s[|s| - 1] != c)
    ensures StripChar([c] + s + [c], c) == s
  {
    assert [c] + s + [c] == [c] + (s + [c]);
    TrimCharStartCons(s + [c], c);
    if |s| == 0 {
      assert s + [c] == [c] + s;
      TrimCharStartCons(s, c);
    } else {
      assert TrimCharStart(s + [c], c) == s + [c] by {
        assert (s + [c])[0] == s[0];
      }
      TrimCharEndSnoc(s, c);
      assert TrimCharEnd(s, c) == s;
    }
  }

  /** Python's `str.lower()` on one character, for the ASCII letters. */
  function LowerChar(c: char): char
  {
    if 'A' <= c <= 'Z' then (c as int - 'A' as int + 'a' as int) as char else c
  }

  /** Python's `s.lower()`, restricted to ASCII case mapping. */
  function Lower(s: string): (r: string)
    ensures |r| == |s|
    ensures forall i :: 0 <= i < |s| ==> r[i] == LowerChar(s[i])
  {
    seq(|s|, i requires 0 <= i < |s| => LowerChar(s[i]))
  }

  /** A string without ASCII capitals is its own lower-case form. */
  lemma LowerKeeps(s: string)
    requires forall i :: 0 <= i < |s| ==> !('A' <= s[i] <= 'Z')
    ensures Lower(s) == s
  {
  }

  /** `sub` occurs in `s` starting at position `i`. */
  ghost predicate OccursAt(s: string, sub: string, i: int)
  {
    0 <= i && i + |sub| <= |s| && s[i..i + |sub|] == sub
  }

  /** Python's `sub in s`: a substring test. */
  function Contains(s: string, sub: string): (b: bool)
    ensures b <==> exists i :: OccursAt(s, sub, i)
    decreases |s|
  {
    if |sub| <= |s| && s[..|sub|] == sub then
      assert OccursAt(s, sub, 0);
      true
    else if |s| == 0 then
      assert forall i :: !OccursAt(s, sub, i);
      false
    else
      var b := Contains(s[1..], sub);
      assert b ==> exists i :: OccursAt(s, sub, i) by {
        if b {
          var i :| OccursAt(s[1..], sub, i);
          assert s[i + 1..i + 1 + |sub|] == s[1..][i..i + |sub|];
          assert OccursAt(s, sub, i + 1);
        }
      }
      assert (exists i :: OccursAt(s, sub, i)) ==> b by {
        if exists i :: OccursAt(s, sub, i) {
          var i :| OccursAt(s, sub, i);
          assert i != 0;
          assert s[1..][i - 1..i - 1 + |sub|] == s[i..i + |sub|];
          assert OccursAt(s[1..], sub, i - 1);
        }
      }
      b
  }

  /** Text placed between two others occurs in the whole, however the whole is grouped. */
  lemma ContainsMiddle(before: string, head: string, sub: string, tail: string)
    ensures Contains(before + (head + sub + tail), sub)
  {
    var s := before + (head + sub + tail);
    var i := |before| + |head|;
    assert s[i..i + |sub|] == sub;
    assert OccursAt(s, sub, i);
  }

  /**
    Python's `s.split(c)[-1]` (equivalently `s.rsplit(c, 1)[-1]`): the text
    after the last `c`, or all of `s` when `c` does not occur in it.
   */
  function AfterLast(s: string, c: char): (r: string)
    ensures |r| <= |s| && r == s[|s| - |r|..]
    ensures c !in r
    ensures |r| < |s| ==> s[|s| - |r| - 1] == c
    ensures r == s <==> c !in s
    decreases |s|
  {
    if |s| == 0 then ""
    else if s[|s| - 1] == c then ""
    else
      var r := AfterLast(s[..|s| - 1], c) + [s[|s| - 1]];
      assert s[..|s| - 1] + [s[|s| - 1]] == s;
      r
  }

  /** When `c` occurs in `s`, the text after the last `c` starts right after an occurrence of `c`. */
  lemma AfterLastAt(s: string, c: char)
    requires c in s
    ensures var i := |s| - |AfterLast(s, c)| - 1;
      0 <= i < |s| && s[i] == c && s[i + 1..] == AfterLast(s, c)
  {
  }

  /** Number of occurrences of `c` in `s`. */
  function Count(s: string, c: char): nat
  {
    if |s| == 0 then 0 else (if s[0] == c then 1 else 0) + Count(s[1..], c)
  }

  /** Python's `s.replace(c, w)` for a one-character needle `c`. */
  function ReplaceChar(s: string, c: char, w: string): (r: string)
    ensures c !in w ==> c !in r
    ensures c !in s ==> r == s
    decreases |s|
  {
    if |s| == 0 then ""
    else (if s[0] == c then w else [s[0]]) + ReplaceChar(s[1..], c, w)
  }

  /** Replacing works piece by piece: the replacement of a concatenation is the concatenation of the replacements. */
  lemma {:induction false} ReplaceCharConcat(a: string, b: string, c: char, w: string)
    ensures ReplaceChar(a + b, c, w) == ReplaceChar(a, c, w) + ReplaceChar(b, c, w)
    decreases |a|
  {
    if |a| > 0 {
      assert (a + b)[0] == a[0] && (a + b)[1..] == a[1..] + b;
      ReplaceCharConcat(a[1..], b, c, w);
    } else {
      assert a + b == b;
    }
  }

  /** A single needle between two needle-free strings is traded for `w` and nothing else changes. */
  lemma ReplaceCharAround(a: string, b: string, c: char, w: string)
    requires c !in a && c !in b
    ensures ReplaceChar(a + [c] + b, c, w) == a + w + b
  {
    ReplaceCharConcat(a + [c], b, c, w);
    ReplaceCharConcat(a, [c], c, w);
    ReplaceCharOne(c, c, w);
  }

  /** One character: the needle becomes `w`, any other character stays. */
  lemma ReplaceCharOne(x: char, c: char, w: string)
    ensures ReplaceChar([x], c, w) == if x == c then w else [x]
  {
    assert [x][1..] == "";
  }

  /** Each occurrence of `c` is traded for `w`, so the length grows by `|w| - 1` per occurrence. */
  lemma {:induction false} ReplaceCharLength(s: string, c: char, w: string)
    ensures |ReplaceChar(s, c, w)| == |s| + Count(s, c) * (|w| - 1)
    decreases |s|
  {
    if |s| > 0 {
      var n := Count(s[1..], c);
      var k := |w| - 1;
      var rest := ReplaceChar(s[1..], c, w);
      ReplaceCharLength(s[1..], c, w);
      assert |rest| == |s| - 1 + n * k;
      if s[0] == c {
        assert ReplaceChar(s, c, w) == w + rest;
        assert Count(s, c) == n + 1;
        Distribute(n, k);
      } else {
        assert ReplaceChar(s, c, w) == [s[0]] + rest;
        assert Count(s, c) == n;
      }
    }
  }

  /** One more occurrence adds one more `k`; kept apart so the multiplication stays out of larger proofs. */
  lemma Distribute(n: int, k: int)
    ensures (n + 1) * k == n * k + k
  {
  }

  /** The three pieces of a concatenation can be sliced back out of it. */
  lemma SliceThree(a: string, m: string, c: string)
    ensures var s := a + m + c;
      && |s| == |a| + |m| + |c|
      && s[..|a|] == a && s[|a|..|s| - |c|] == m && s[|s| - |c|..] == c
  {
  }
}
