/** The few `java.lang.String` operations the core relies on, over
    `seq<char>`: `trim`, ASCII `toLowerCase`, `replace` of a literal with
    the empty string, and `split` on a literal dot. */
module JavaStrings {

  // ---------------------------------------------------------------------
  // trim(): drops every leading and trailing character <= U+0020.
  // ---------------------------------------------------------------------

  function TrimStart(s: string): (r: string)
    ensures |r| <= |s| && r == s[|s| - |r|..]
    ensures r != [] ==> r[0] > ' '
  {
    if s != [] && s[0] <= ' ' then TrimStart(s[1..]) else s
  }

  function TrimEnd(s: string): (r: string)
    ensures |r| <= |s| && r == s[..|r|]
  {
    if s != [] && s[|s| - 1] <= ' ' then TrimEnd(s[..|s| - 1]) else s
  }

  /** Java's `String.trim()`. */
  function Trim(s: string): string {
    TrimEnd(TrimStart(s))
  }

  /** Every character of `s` is one `trim()` removes. */
  predicate AllSpace(s: string) {
    forall i :: 0 <= i < |s| ==> s[i] <= ' '
  }

  lemma {:induction false} TrimStartEmptyIff(s: string)
    ensures TrimStart(s) == [] <==> AllSpace(s)
  {
    if s != [] && s[0] <= ' ' {
      TrimStartEmptyIff(s[1..]);
      assert AllSpace(s) <==> AllSpace(s[1..]) by {
        if AllSpace(s[1..]) {
          forall i | 0 <= i < |s| ensures s[i] <= ' ' {
            if i > 0 { assert s[i] == s[1..][i - 1]; }
          }
        }
      }
    } else if s != [] {
      assert !AllSpace(s);
    }
  }

  lemma {:induction false} TrimEndKeepsNonEmpty(s: string)
    requires s != [] && s[0] > ' '
    ensures TrimEnd(s) != []
  {
    if s[|s| - 1] <= ' ' {
      TrimEndKeepsNonEmpty(s[..|s| - 1]);
    }
  }

  /** `s.trim().isEmpty()` holds exactly when `s` is blank: empty or made
      only of characters <= U+0020. */
  lemma TrimEmptyIff(s: string)
    ensures Trim(s) == [] <==> AllSpace(s)
  {
    TrimStartEmptyIff(s);
    var t := TrimStart(s);
    if t != [] {
      TrimEndKeepsNonEmpty(t);
    }
  }

  // ---------------------------------------------------------------------
  // toLowerCase(), restricted to ASCII letters.
  // ---------------------------------------------------------------------

  function LowerChar(c: char): char {
    if 'A' <= c <= 'Z' then (c as int + 32) as char else c
  }

  /** Locale-independent ASCII lower-casing. */
  function Lower(s: string): string {
    seq(|s|, i requires 0 <= i < |s| => LowerChar(s[i]))
  }

  /** Lower-casing works character by character. */
  lemma LowerAppend(x: string, y: string)
    ensures Lower(x + y) == Lower(x) + Lower(y)
  {
  }

  // ---------------------------------------------------------------------
  // replace(pat, ""): removes occurrences of `pat` found by a
  // left-to-right scan, without rescanning what is left behind.
  // ---------------------------------------------------------------------

  /** `pat` occurs in `s` starting at index `i`. */
  predicate OccursAt(s: string, pat: string, i: nat) {
    i + |pat| <= |s| && s[i..i + |pat|] == pat
  }

  function RemoveAll(s: string, pat: string): (r: string)
    requires pat != []
    ensures |r| <= |s|
  {
    if s == [] then []
    else if pat <= s then RemoveAll(s[|pat|..], pat)
    else [s[0]] + RemoveAll(s[1..], pat)
  }

  /** No proper prefix of `pat` is also a suffix of it, so two occurrences
      of `pat` can never overlap. */
  predicate BorderFree(pat: string) {
    forall k :: 0 < k < |pat| ==> pat[..k] != pat[|pat| - k..]
  }

  /** A border-free `pat` cannot start fewer than `|pat|` characters before
      another of its occurrences. */
  lemma NoOverlapWithNext(a: string, pat: string, b: string)
    requires BorderFree(pat) && 0 < |a| < |pat|
    ensures !(pat <= a + pat + b)
  {
    var s := a + pat + b;
    var k := |pat| - |a|;
    assert pat[..k] != pat[|pat| - k..];
    assert s[|a|..|pat|] == pat[..k];
    assert s[..|pat|][|a|..] == s[|a|..|pat|];
    assert s[..|pat|] != pat;
  }

  /** Where `pat` does not occur, `replace` leaves the string as it is. */
  lemma {:induction false} RemoveAllAbsent(s: string, pat: string)
    requires pat != []
    requires forall i: nat :: !OccursAt(s, pat, i)
    ensures RemoveAll(s, pat) == s
  {
    if s != [] {
      assert !OccursAt(s, pat, 0);
      assert pat <= s ==> OccursAt(s, pat, 0);
      forall i: nat ensures !OccursAt(s[1..], pat, i) {
        if OccursAt(s[1..], pat, i) {
          assert s[i + 1..i + 1 + |pat|] == s[1..][i..i + |pat|];
          assert OccursAt(s, pat, i + 1);
        }
      }
      RemoveAllAbsent(s[1..], pat);
    }
  }

  /** Every occurrence is removed, not only a suffix: cutting the string
      at any occurrence of a border-free `pat` and removing on both sides
      gives the same result. */
  lemma {:induction false} RemoveAllSplits(a: string, pat: string, b: string)
    requires pat != [] && BorderFree(pat)
    ensures RemoveAll(a + pat + b, pat) == RemoveAll(a, pat) + RemoveAll(b, pat)
  {
    var s := a + pat + b;
    if a == [] {
      assert s == pat + b;
      assert pat <= s;
      assert s[|pat|..] == b;
    } else if pat <= s {
      if |a| < |pat| {
        NoOverlapWithNext(a, pat, b);
      }
      assert pat <= a;
      assert s[|pat|..] == a[|pat|..] + pat + b;
      RemoveAllSplits(a[|pat|..], pat, b);
    } else {
      assert pat <= a ==> pat <= s;
      assert s[1..] == a[1..] + pat + b;
      RemoveAllSplits(a[1..], pat, b);
    }
  }

  // ---------------------------------------------------------------------
  // split("\\.") with limit 0.
  // ---------------------------------------------------------------------

  predicate NoDot(s: string) {
    '.' !in s
  }

  /** The fields between the dots of `s`, empty ones included. */
  function Fields(s: string): (r: seq<string>)
    ensures |r| >= 1
    ensures forall i :: 0 <= i < |r| ==> NoDot(r[i])
  {
    if s == [] then [""]
    else if s[0] == '.' then [""] + Fields(s[1..])
    else
      var f := Fields(s[1..]);
      [[s[0]] + f[0]] + f[1..]
  }

  /** Drops the empty strings at the end of `fs`. */
  function DropTrailingEmpty(fs: seq<string>): (r: seq<string>)
    ensures |r| <= |fs| && r == fs[..|r|]
    ensures r != [] ==> r[|r| - 1] != ""
    ensures forall i :: |r| <= i < |fs| ==> fs[i] == ""
  {
    if fs != [] && fs[|fs| - 1] == "" then DropTrailingEmpty(fs[..|fs| - 1]) else fs
  }

  /** Java's `s.split("\\.")`: the whole string when it holds no dot,
      otherwise its fields with the trailing empty ones dropped. */
  function SplitOnDot(s: string): (r: seq<string>)
    ensures r == [s] <==> NoDot(s)
    ensures forall i :: 0 <= i < |r| ==> NoDot(r[i])
    ensures |r| >= 2 ==> r[|r| - 1] != ""
  {
    if NoDot(s) then [s] else DropTrailingEmpty(Fields(s))
  }

  /** `k` dots. */
  function Dots(k: nat): (r: string)
    ensures |r| == k
    ensures forall i :: 0 <= i < k ==> r[i] == '.'
  {
    if k == 0 then "" else "." + Dots(k - 1)
  }

  /** `k` empty strings. */
  function Empties(k: nat): (r: seq<string>)
    ensures |r| == k
    ensures forall i :: 0 <= i < k ==> r[i] == ""
  {
    if k == 0 then [] else [""] + Empties(k - 1)
  }

  /** Joining fields with dots, the inverse of `Fields`. */
  function Join(fs: seq<string>): string
    requires |fs| >= 1
  {
    if |fs| == 1 then fs[0] else fs[0] + "." + Join(fs[1..])
  }

  lemma {:induction false} JoinFields(s: string)
    ensures Join(Fields(s)) == s
  {
    if s != [] {
      JoinFields(s[1..]);
      if s[0] == '.' {
        assert ([""] + Fields(s[1..]))[1..] == Fields(s[1..]);
      } else {
        var f := Fields(s[1..]);
        var g := [[s[0]] + f[0]] + f[1..];
        assert g[1..] == f[1..];
        if |f| > 1 {
          assert Join(f) == f[0] + "." + Join(f[1..]);
        }
      }
    }
  }

  lemma {:induction false} FieldsNoDot(x: string, y: string)
    requires NoDot(x)
    ensures Fields(x + "." + y) == [x] + Fields(y)
    ensures Fields(x) == [x]
  {
    if x == [] {
      assert x + "." + y == "." + y;
      assert ("." + y)[1..] == y;
    } else {
      assert (x + "." + y)[1..] == x[1..] + "." + y;
      assert x[1..] == x[1..];
      assert forall c :: c in x[1..] ==> c in x;
      FieldsNoDot(x[1..], y);
      assert [x[0]] + x[1..] == x;
    }
  }

  lemma {:induction false} FieldsDots(k: nat)
    ensures Fields(Dots(k)) == Empties(k + 1)
  {
    if k > 0 {
      FieldsDots(k - 1);
      assert Dots(k)[1..] == Dots(k - 1);
    }
  }

  lemma {:induction false} JoinEmpties(a: string, e: string, k: nat)
    ensures Join([a, e] + Empties(k)) == a + "." + e + Dots(k)
  {
    if k == 0 {
      assert [a, e][1..] == [e];
    } else {
      JoinEmpties(a, e, k - 1);
      assert ([a, e] + Empties(k))[1..] == [e] + Empties(k);
      assert ([e] + Empties(k))[1..] == Empties(k);
      JoinOnlyEmpties(k);
      assert Join([e] + Empties(k)) == e + "." + Join(Empties(k));
      assert Dots(k) == "." + Dots(k - 1);
      JoinOnlyEmpties(k);
    }
  }

  lemma {:induction false} JoinOnlyEmpties(k: nat)
    requires k >= 1
    ensures Join(Empties(k)) == Dots(k - 1)
  {
    if k > 1 {
      JoinOnlyEmpties(k - 1);
      assert Empties(k)[1..] == Empties(k - 1);
    }
  }
}
