/**
 * The C library string operations the interpreter relies on, over character
 * sequences that stand for C strings without their terminating NUL.
 */
module CStrings {
  import opened Optional

  const NUL: char := '\0'

  /** A C string holds no NUL before its terminator. */
  predicate IsCString(s: string) {
    NUL !in s
  }

  /**
   * strncmp(a, b, n) == 0: the strings are compared one character at a time,
   * at most n characters, and the comparison stops early where both end.
   */
  function StrNEq(a: string, b: string, n: nat): (r: bool)
    ensures IsCString(a) && IsCString(b) && n <= |a| && n <= |b| ==> (r <==> a[..n] == b[..n])
    decreases n
  {
    if n == 0 then true
    else
      var ca := if a == [] then NUL else a[0];
      var cb := if b == [] then NUL else b[0];
      if ca != cb then false
      else if ca == NUL then true
      else
        assert IsCString(a) ==> IsCString(a[1..]) by {
          assert forall c :: c in a[1..] ==> c in a;
        }
        assert IsCString(b) ==> IsCString(b[1..]) by {
          assert forall c :: c in b[1..] ==> c in b;
        }
        assert n <= |a| && n <= |b| ==> (a[..n] == b[..n] <==> a[1..][..n - 1] == b[1..][..n - 1]) by {
          if n <= |a| && n <= |b| {
            assert a[..n] == [a[0]] + a[1..][..n - 1];
            assert b[..n] == [b[0]] + b[1..][..n - 1];
          }
        }
        StrNEq(a[1..], b[1..], n - 1)
  }

  /** Bounding strncmp by strlen(b) makes it a test that b is a prefix of a. */
  lemma {:induction false} StrNEqIsPrefix(a: string, b: string)
    requires IsCString(a) && IsCString(b)
    ensures StrNEq(a, b, |b|) <==> b <= a
  {
    if b != [] {
      assert b[0] in b;
      if a != [] {
        assert a[0] in a;
        assert forall c :: c in a[1..] ==> c in a;
        assert forall c :: c in b[1..] ==> c in b;
        StrNEqIsPrefix(a[1..], b[1..]);
        assert b <= a <==> a[0] == b[0] && b[1..] <= a[1..] by {
          if b <= a {
            assert b[1..] == a[1..][..|b| - 1];
          }
          if a[0] == b[0] && b[1..] <= a[1..] {
            assert a[..|b|] == [a[0]] + a[1..][..|b| - 1];
            assert b == [b[0]] + b[1..];
          }
        }
      }
    }
  }

  /** strstr(s, " "): the position of the first space in s, if there is one. */
  function FindSpace(s: string): (r: Option<nat>)
    ensures r.Some? ==> r.value < |s| && s[r.value] == ' ' && ' ' !in s[..r.value]
    ensures r.None? <==> ' ' !in s
  {
    if s == [] then None
    else if s[0] == ' ' then Some(0)
    else
      match FindSpace(s[1..])
      case None =>
        assert s == [s[0]] + s[1..];
        None
      case Some(i) =>
        assert s[..i + 1] == [s[0]] + s[1..][..i];
        Some(i + 1)
  }

  /** A space with no space before it is the one strstr finds. */
  lemma FirstSpaceAt(s: string, i: nat)
    requires i < |s| && s[i] == ' ' && ' ' !in s[..i]
    ensures FindSpace(s) == Some(i)
  {
    var r := FindSpace(s);
    assert r.Some?;
  }

  /** strstr(s, " ") + 1: the text after the first space, if there is a space. */
  function Argument(s: string): (r: Option<string>)
    ensures r.None? <==> ' ' !in s
    ensures r.Some? ==> exists i :: 0 <= i < |s| && s[i] == ' ' && ' ' !in s[..i] && r.value == s[i + 1..]
  {
    match FindSpace(s)
    case None => None
    case Some(i) => Some(s[i + 1..])
  }

  /** The argument of a word followed by a space and more text is that text. */
  lemma ArgumentAfterWord(word: string, rest: string)
    requires ' ' !in word
    ensures Argument(word + " " + rest) == Some(rest)
  {
    var s := word + " " + rest;
    assert s[..|word|] == word;
    FirstSpaceAt(s, |word|);
    assert s[|word| + 1..] == rest;
  }

  /** Text in front without a space does not change the argument. */
  lemma ArgumentAfterPrefix(word: string, rest: string)
    requires ' ' !in word
    ensures Argument(word + rest) == Argument(rest)
  {
    var s := word + rest;
    match FindSpace(rest)
    case None =>
      assert forall c :: c in s ==> c in word || c in rest;
    case Some(i) =>
      assert s[..|word| + i] == word + rest[..i];
      assert forall c :: c in s[..|word| + i] ==> c in word || c in rest[..i];
      FirstSpaceAt(s, |word| + i);
      assert s[|word| + i + 1..] == rest[i + 1..];
  }
}
