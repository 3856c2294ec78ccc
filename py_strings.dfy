/** The handful of Python string operations the core relies on:
    `re.search` with a literal pattern, `lower()`, `upper()` and `replace()`.
    Case mapping is ASCII only. */
module PyStrings {

  /** `re.search(sub, s)` for a pattern without special characters, or `sub in s`. */
  predicate Contains(s: string, sub: string) {
    exists i | 0 <= i <= |s| - |sub| :: MatchesAt(s, sub, i)
  }

  predicate MatchesAt(s: string, sub: string, i: int)
    requires 0 <= i <= |s| - |sub|
  {
    s[i..i + |sub|] == sub
  }

  function LowerChar(c: char): char {
    if 'A' <= c <= 'Z' then (c as int + 32) as char else c
  }

  function UpperChar(c: char): char {
    if 'a' <= c <= 'z' then (c as int - 32) as char else c
  }

  /** `s.lower()` */
  function Lower(s: string): string {
    if s == [] then [] else [LowerChar(s[0])] + Lower(s[1..])
  }

  /** `s.upper()` */
  function Upper(s: string): string {
    if s == [] then [] else [UpperChar(s[0])] + Upper(s[1..])
  }

  lemma {:induction false} UpperShape(s: string)
    ensures |Upper(s)| == |s|
    ensures forall i :: 0 <= i < |s| ==> Upper(s)[i] == UpperChar(s[i])
    ensures forall i :: 0 <= i < |s| ==> !('a' <= Upper(s)[i] <= 'z')
  {
    if s != [] {
      UpperShape(s[1..]);
    }
  }

  /** Upper-casing twice is upper-casing once. */
  lemma {:induction false} UpperIdempotent(s: string)
    ensures Upper(Upper(s)) == Upper(s)
  {
    if s != [] {
      UpperIdempotent(s[1..]);
      assert Upper(s)[1..] == Upper(s[1..]);
    }
  }

  /** `s.replace(' ', '')` */
  function RemoveSpaces(s: string): string {
    if s == [] then []
    else if s[0] == ' ' then RemoveSpaces(s[1..])
    else [s[0]] + RemoveSpaces(s[1..])
  }

  /** `s.replace('//', '/')`: non-overlapping occurrences, left to right. */
  function CollapseDoubleSlash(s: string): string {
    if |s| >= 2 && s[0] == '/' && s[1] == '/' then "/" + CollapseDoubleSlash(s[2..])
    else if s == [] then []
    else [s[0]] + CollapseDoubleSlash(s[1..])
  }

  predicate HasDoubleSlash(s: string) {
    exists i | 0 <= i < |s| - 1 :: s[i] == '/' && s[i + 1] == '/'
  }

  /** Removing spaces drops all spaces and keeps the count of every other character. */
  lemma {:induction false} RemoveSpacesSpec(s: string)
    ensures ' ' !in RemoveSpaces(s)
    ensures |RemoveSpaces(s)| <= |s|
    ensures RemoveSpaces(s) == s <==> ' ' !in s
    ensures forall c :: c != ' ' ==> multiset(RemoveSpaces(s))[c] == multiset(s)[c]
  {
    if s != [] {
      RemoveSpacesSpec(s[1..]);
      assert s == [s[0]] + s[1..];
      if s[0] == ' ' {
        assert RemoveSpaces(s) != s by {
          assert |RemoveSpaces(s)| < |s|;
        }
      }
    }
  }

  /** The replacement never grows the string, never introduces nor removes a
      space, and changes the string exactly when it holds a `//`. */
  lemma {:induction false} CollapseDoubleSlashSpec(s: string)
    ensures |CollapseDoubleSlash(s)| <= |s|
    ensures (' ' in CollapseDoubleSlash(s)) == (' ' in s)
    ensures CollapseDoubleSlash(s) == s <==> !HasDoubleSlash(s)
  {
    if |s| >= 2 && s[0] == '/' && s[1] == '/' {
      CollapseDoubleSlashSpec(s[2..]);
      assert s == "//" + s[2..];
      assert HasDoubleSlash(s) by { assert s[0] == '/' && s[1] == '/'; }
      assert |CollapseDoubleSlash(s)| < |s|;
    } else if s != [] {
      CollapseDoubleSlashSpec(s[1..]);
      assert s == [s[0]] + s[1..];
      assert HasDoubleSlash(s) <==> HasDoubleSlash(s[1..]) by {
        if HasDoubleSlash(s) {
          var i :| 0 <= i < |s| - 1 && s[i] == '/' && s[i + 1] == '/';
          assert i > 0;
          assert s[1..][i - 1] == '/' && s[1..][i] == '/';
        }
        if HasDoubleSlash(s[1..]) {
          var i :| 0 <= i < |s[1..]| - 1 && s[1..][i] == '/' && s[1..][i + 1] == '/';
          assert s[i + 1] == '/' && s[i + 2] == '/';
        }
      }
    }
  }

  /** The `set_lfns` clean-up of one LFN. */
  function NormaliseLFN(s: string): (r: string)
    ensures ' ' !in r
    ensures |r| <= |s|
    ensures r == s <==> ' ' !in s && !HasDoubleSlash(s)
  {
    RemoveSpacesSpec(s);
    CollapseDoubleSlashSpec(RemoveSpaces(s));
    CollapseDoubleSlash(RemoveSpaces(s))
  }
}
