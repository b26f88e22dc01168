/**
 * The Python string primitives the bot relies on: `str.isspace`, `str.strip()`,
 * `str.split(sep)` and the substring test `token in text`.
 * A Dafny `char` is a Unicode scalar value, so for a string without lone
 * surrogates (which a Python `str` may hold and a `char` cannot) `|s|` counts
 * code points as Python's `len` does.
 */
module Strings {

  /**
   * The characters for which Python's `str.isspace()` holds. The comma and
   * the characters of a Telegram handle (letters, digits, `_`) are not among
   * them, and the plain space is.
   */
  function IsSpace(c: char): (r: bool)
    ensures c == ' ' ==> r
    ensures r ==> c != ',' && c != '@' && c != '_'
    ensures r ==> !('a' <= c <= 'z' || 'A' <= c <= 'Z' || '0' <= c <= '9')
    ensures r ==> c <= '\U{3000}'
  {
    || ('\U{9}' <= c <= '\U{D}')
    || ('\U{1C}' <= c <= '\U{20}')
    || c == '\U{85}' || c == '\U{A0}' || c == '\U{1680}'
    || ('\U{2000}' <= c <= '\U{200A}')
    || c == '\U{2028}' || c == '\U{2029}' || c == '\U{202F}' || c == '\U{205F}'
    || c == '\U{3000}'
  }

  predicate AllSpace(s: string)
  {
    forall i :: 0 <= i < |s| ==> IsSpace(s[i])
  }

  /** `s` with its leading whitespace removed (Python `str.lstrip()`). */
  function StripLeft(s: string): (r: string)
    ensures |r| <= |s| && r == s[|s| - |r|..]
    ensures r == [] || !IsSpace(r[0])
  {
    if s != [] && IsSpace(s[0]) then StripLeft(s[1..]) else s
  }

  /** What `StripLeft` removes is whitespace. */
  lemma {:induction false} StripLeftRemovesSpace(s: string)
    ensures AllSpace(s[..|s| - |StripLeft(s)|])
  {
    if s != [] && IsSpace(s[0]) {
      StripLeftRemovesSpace(s[1..]);
      var n := |s| - |StripLeft(s)|;
      assert s[..n] == [s[0]] + s[1..][..n - 1];
    }
  }

  /** `s` with its trailing whitespace removed (Python `str.rstrip()`). */
  function StripRight(s: string): (r: string)
    ensures |r| <= |s| && r == s[..|r|]
    ensures r == [] || !IsSpace(r[|r| - 1])
  {
    if s != [] && IsSpace(s[|s| - 1]) then StripRight(s[..|s| - 1]) else s
  }

  /** What `StripRight` removes is whitespace. */
  lemma {:induction false} StripRightRemovesSpace(s: string)
    ensures AllSpace(s[|StripRight(s)|..])
  {
    if s != [] && IsSpace(s[|s| - 1]) {
      var t := s[..|s| - 1];
      StripRightRemovesSpace(t);
      var n := |StripRight(s)|;
      assert s[n..] == t[n..] + [s[|s| - 1]];
    }
  }

  /** `r` is `s[i..i + |r|]` and everything of `s` around it is whitespace. */
  predicate StrippedAt(s: string, r: string, i: nat)
  {
    i + |r| <= |s| && r == s[i..i + |r|] && AllSpace(s[..i]) && AllSpace(s[i + |r|..])
  }

  /** Neither end of `s` is whitespace. */
  predicate IsStripped(s: string)
  {
    s == [] || (!IsSpace(s[0]) && !IsSpace(s[|s| - 1]))
  }

  /** Python `str.strip()`: no whitespace at either end of the result. */
  function Strip(s: string): (r: string)
    ensures |r| <= |s|
    ensures IsStripped(r)
  {
    StripRight(StripLeft(s))
  }

  /**
   * What `Strip` removes is whitespace only: `s` is the result surrounded by
   * whitespace.
   */
  lemma {:induction false} StripRemovesOnlySpace(s: string) returns (i: nat)
    ensures StrippedAt(s, Strip(s), i)
  {
    var l := StripLeft(s);
    var r := StripRight(l);
    StripLeftRemovesSpace(s);
    StripRightRemovesSpace(l);
    i := |s| - |l|;
    assert r == l[..|r|] == s[i..i + |r|];
    assert s[i + |r|..] == l[|r|..];
  }

  /** Stripping changes nothing in a string that is already stripped. */
  lemma {:induction false} StripFixesStripped(s: string)
    requires IsStripped(s)
    ensures Strip(s) == s
  {
    assert StripLeft(s) == s;
  }

  /** A string is stripped to nothing exactly when it is all whitespace. */
  lemma {:induction false} StripEmptyIffAllSpace(s: string)
    ensures Strip(s) == [] <==> AllSpace(s)
  {
    var t := Strip(s);
    var i := StripRemovesOnlySpace(s);
    if t == [] {
      forall k | 0 <= k < |s| ensures IsSpace(s[k]) {
        if k < i { assert s[..i][k] == s[k]; } else { assert s[i..][k - i] == s[k]; }
      }
    } else {
      assert s[i] == t[0];
    }
  }

  /** Python `sep.join(pieces)` for a non-empty list of pieces. */
  function Join(pieces: seq<string>, sep: char): string
    requires |pieces| >= 1
  {
    if |pieces| == 1 then pieces[0] else pieces[0] + [sep] + Join(pieces[1..], sep)
  }

  /**
   * Python `s.split(sep)` for a one-character separator: at least one piece,
   * no piece holds the separator, and joining the pieces back gives `s`.
   */
  function Split(s: string, sep: char): (r: seq<string>)
    ensures |r| >= 1
    ensures forall i :: 0 <= i < |r| ==> sep !in r[i]
    ensures Join(r, sep) == s
  {
    if s == [] then [""]
    else
      var rest := Split(s[1..], sep);
      if s[0] == sep then
        assert Join([""] + rest, sep) == [sep] + Join(rest, sep);
        [""] + rest
      else
        var r := [[s[0]] + rest[0]] + rest[1..];
        assert r[1..] == rest[1..];
        assert Join(r, sep) == [s[0]] + Join(rest, sep);
        r
  }

  /**
   * The pieces of `Split` are the only separator-free pieces that join back to
   * `s`: splitting and joining are inverse to each other.
   */
  lemma {:induction false} SplitUnique(pieces: seq<string>, sep: char)
    requires |pieces| >= 1
    requires forall i :: 0 <= i < |pieces| ==> sep !in pieces[i]
    ensures Split(Join(pieces, sep), sep) == pieces
    decreases |pieces|, |pieces[0]|
  {
    var s := Join(pieces, sep);
    if |pieces| == 1 {
      SplitNoSep(pieces[0], sep);
    } else if pieces[0] == [] {
      assert s == [sep] + Join(pieces[1..], sep);
      assert s[1..] == Join(pieces[1..], sep);
      SplitUnique(pieces[1..], sep);
      assert pieces == [""] + pieces[1..];
    } else {
      var q := [pieces[0][1..]] + pieces[1..];
      assert q[1..] == pieces[1..];
      assert forall i :: 0 <= i < |q| ==> sep !in q[i] by {
        forall i | 0 <= i < |q| ensures sep !in q[i] {
          if i == 0 {
            assert forall x :: x in pieces[0][1..] ==> x in pieces[0];
          } else {
            assert q[i] == pieces[i];
          }
        }
      }
      SplitUnique(q, sep);
      assert s == [pieces[0][0]] + Join(q, sep);
      assert s[1..] == Join(q, sep);
      assert pieces[0][0] != sep;
      assert [pieces[0][0]] + pieces[0][1..] == pieces[0];
      assert pieces == [[pieces[0][0]] + Split(s[1..], sep)[0]] + Split(s[1..], sep)[1..];
    }
  }

  /** A string without the separator splits into itself alone. */
  lemma {:induction false} SplitNoSep(s: string, sep: char)
    requires sep !in s
    ensures Split(s, sep) == [s]
  {
    if s != [] {
      assert forall x :: x in s[1..] ==> x in s;
      SplitNoSep(s[1..], sep);
    }
  }

  /** `token` occurs in `text` starting at index `i`. */
  predicate OccursAt(text: string, token: string, i: int)
  {
    0 <= i <= |text| - |token| && text[i..i + |token|] == token
  }

  /** Python's `token in text`: `token` occurs in `text` at some position. */
  function Contains(text: string, token: string): (r: bool)
    ensures r <==> exists i :: OccursAt(text, token, i)
  {
    if |text| < |token| then false
    else if text[..|token|] == token then
      assert OccursAt(text, token, 0);
      true
    else
      var r := Contains(text[1..], token);
      OccursShift(text, token);
      r
  }

  /** An occurrence past the first index is an occurrence in the tail. */
  lemma {:induction false} OccursShift(text: string, token: string)
    requires |text| >= |token| && text[..|token|] != token
    ensures (exists i :: OccursAt(text, token, i)) <==> (exists j :: OccursAt(text[1..], token, j))
  {
    if j :| OccursAt(text[1..], token, j) {
      assert text[1..][j..j + |token|] == text[j + 1..j + 1 + |token|];
      assert OccursAt(text, token, j + 1);
    }
    if i :| OccursAt(text, token, i) {
      assert i != 0;
      assert text[1..][i - 1..i - 1 + |token|] == text[i..i + |token|];
      assert OccursAt(text[1..], token, i - 1);
    }
  }
}
