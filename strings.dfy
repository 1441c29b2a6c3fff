/** The pieces of Go's `strings` and `unicode` packages that the profanity
    filter and the chirp length check rely on, over strings of Unicode
    scalar values (`seq<char>`). A Go string that came out of the JSON
    decoder is valid UTF-8, so each `char` here stands for one rune. */
module Strings {

  /** `unicode.IsSpace`: the Latin-1 spaces and the other code points with
      the Unicode White_Space property. In ASCII these are the space and
      the five control codes from tab to carriage return. */
  predicate IsSpace(c: char): (r: bool)
    ensures c as int < 0x80 ==> (r <==> c == ' ' || '\t' <= c <= '\r')
    ensures r && c as int >= 0x80 ==> 0x85 <= c as int <= 0x3000
  {
    || c == '\t' || c == '\n' || c == '\U{000B}' || c == '\U{000C}' || c == '\r' || c == ' '
    || c == '\U{0085}' || c == '\U{00A0}' || c == '\U{1680}'
    || ('\U{2000}' <= c <= '\U{200A}')
    || c == '\U{2028}' || c == '\U{2029}' || c == '\U{202F}' || c == '\U{205F}' || c == '\U{3000}'
  }

  /** A non-empty run of non-space runes: what `strings.Fields` returns. */
  predicate IsWord(w: string) {
    |w| > 0 && forall k :: 0 <= k < |w| ==> !IsSpace(w[k])
  }

  predicate AllWords(ws: seq<string>) {
    forall i :: 0 <= i < |ws| ==> IsWord(ws[i])
  }

  /** `unicode.ToLower` on one rune, exact wherever the result is ASCII:
      'A'..'Z', and the two non-ASCII runes whose lower case is ASCII
      (U+212A KELVIN SIGN to 'k', U+0130 to 'i'). Every other non-ASCII rune
      is left as it is; its true lower case is non-ASCII as well, so no
      comparison with an ASCII string can tell the two apart. */
  function LowerRune(c: char): (l: char)
    ensures ('a' <= l <= 'z') <==> ('a' <= c <= 'z' || 'A' <= c <= 'Z' || c == '\U{212A}' || c == '\U{0130}')
  {
    if 'A' <= c <= 'Z' then (c as int + 32) as char
    else if c == '\U{212A}' then 'k'
    else if c == '\U{0130}' then 'i'
    else c
  }

  /** `strings.ToLower`: maps every rune, so the rune count is kept. */
  function ToLower(s: string): (r: string)
    ensures |r| == |s|
  {
    seq(|s|, k requires 0 <= k < |s| => LowerRune(s[k]))
  }

  /** Length of the longest prefix of `s` that holds no space. */
  function WordLen(s: string): (n: nat)
    ensures n <= |s|
    ensures forall k :: 0 <= k < n ==> !IsSpace(s[k])
    ensures n < |s| ==> IsSpace(s[n])
  {
    if s == [] || IsSpace(s[0]) then 0 else 1 + WordLen(s[1..])
  }

  /** `strings.Fields`: the maximal runs of non-space runes, in order. */
  function Fields(s: string): (ws: seq<string>)
    ensures AllWords(ws)
    decreases |s|
  {
    if s == [] then []
    else if IsSpace(s[0]) then Fields(s[1..])
    else
      var n := WordLen(s);
      [s[..n]] + Fields(s[n..])
  }

  /** `strings.Join`: the elements with `sep` between neighbours. */
  function Join(ws: seq<string>, sep: string): (r: string)
    ensures ws != [] ==> |r| == |Concat(ws)| + (|ws| - 1) * |sep|
    ensures ws != [] ==> r[..|ws[0]|] == ws[0]
  {
    if ws == [] then ""
    else if |ws| == 1 then ws[0]
    else ws[0] + sep + Join(ws[1..], sep)
  }

  /** The runes of `s` that are not spaces, in order. */
  function DropSpaces(s: string): (r: string)
    ensures forall k :: 0 <= k < |r| ==> !IsSpace(r[k])
  {
    if s == [] then ""
    else if IsSpace(s[0]) then DropSpaces(s[1..])
    else [s[0]] + DropSpaces(s[1..])
  }

  /** The concatenation of all the strings in `ws`. */
  function Concat(ws: seq<string>): string {
    if ws == [] then "" else ws[0] + Concat(ws[1..])
  }

  /** Number of bytes of the UTF-8 encoding of one rune. */
  function RuneLen(c: char): (n: nat)
    ensures 1 <= n <= 4
  {
    if c as int < 0x80 then 1
    else if c as int < 0x800 then 2
    else if c as int < 0x1_0000 then 3
    else 4
  }

  /** Go's `len` on a string: its length in UTF-8 bytes, not in runes. */
  function Utf8Length(s: string): (n: nat)
    ensures |s| <= n <= 4 * |s|
    ensures (forall k :: 0 <= k < |s| ==> s[k] as int < 0x80) ==> n == |s|
  {
    if s == [] then 0 else RuneLen(s[0]) + Utf8Length(s[1..])
  }

  // ---------------------------------------------------------------------
  // Lemmas

  /** A word followed by nothing or by a space is exactly what WordLen
      measures: WordLen's contract pins its result down. */
  lemma WordLenOfWord(w: string, t: string)
    requires forall k :: 0 <= k < |w| ==> !IsSpace(w[k])
    requires t == [] || IsSpace(t[0])
    ensures WordLen(w + t) == |w|
  {
    var s := w + t;
    assert forall k :: 0 <= k < |w| ==> s[k] == w[k];
    if t != [] {
      assert s[|w|] == t[0];
    }
  }

  /** Fields undoes a single-space Join of words: the words come back,
      each one whole, in order. */
  lemma {:induction false} FieldsOfJoin(ws: seq<string>)
    requires AllWords(ws)
    ensures Fields(Join(ws, " ")) == ws
  {
    if ws != [] {
      var w := ws[0];
      var t := if |ws| == 1 then "" else " " + Join(ws[1..], " ");
      assert Join(ws, " ") == w + t;
      WordLenOfWord(w, t);
      var s := w + t;
      assert s[0] == w[0];
      assert s[..|w|] == w;
      assert s[|w|..] == t;
      assert Fields(s) == [w] + Fields(t);
      if |ws| > 1 {
        assert t[1..] == Join(ws[1..], " ");
        FieldsOfJoin(ws[1..]);
        assert Fields(t) == ws[1..];
      }
      assert ws == [w] + ws[1..];
    }
  }

  /** A single-space Join of words is empty exactly when there are no
      words, never starts or ends with a space, and every space in it is
      one ' ' standing between two non-space runes. */
  lemma {:induction false} JoinLayout(ws: seq<string>)
    requires AllWords(ws)
    ensures var r := Join(ws, " ");
      && (r == [] <==> ws == [])
      && (r != [] ==> !IsSpace(r[0]) && !IsSpace(r[|r| - 1]))
      && (forall k :: 0 <= k < |r| && IsSpace(r[k]) ==>
            r[k] == ' ' && 0 < k < |r| - 1 && !IsSpace(r[k - 1]) && !IsSpace(r[k + 1]))
  {
    if |ws| > 1 {
      var w := ws[0];
      var rest := Join(ws[1..], " ");
      JoinLayout(ws[1..]);
      var r := Join(ws, " ");
      assert r == w + " " + rest;
      assert rest != [];
      forall k | 0 <= k < |r| && IsSpace(r[k])
        ensures r[k] == ' ' && 0 < k < |r| - 1 && !IsSpace(r[k - 1]) && !IsSpace(r[k + 1])
      {
        if k == |w| {
          assert r[k - 1] == w[|w| - 1];
          assert r[k + 1] == rest[0];
        } else {
          assert r[k] == rest[k - |w| - 1];
          if k > |w| + 1 {
            assert r[k - 1] == rest[k - |w| - 2];
          }
          assert k - |w| - 1 < |rest| - 1;
          assert r[k + 1] == rest[k - |w|];
        }
      }
      assert r[0] == w[0];
      assert r[|r| - 1] == rest[|rest| - 1];
    }
  }

  /** Fields finds no word exactly when every rune is a space. */
  lemma {:induction false} FieldsEmpty(s: string)
    ensures Fields(s) == [] <==> forall k :: 0 <= k < |s| ==> IsSpace(s[k])
    decreases |s|
  {
    if s != [] {
      FieldsEmpty(s[1..]);
      if IsSpace(s[0]) {
        assert forall k :: 1 <= k < |s| ==> s[k] == s[1..][k - 1];
      }
    }
  }

  lemma {:induction false} DropSpacesAppend(a: string, b: string)
    ensures DropSpaces(a + b) == DropSpaces(a) + DropSpaces(b)
    decreases |a|
  {
    if a != [] {
      assert (a + b)[0] == a[0];
      assert (a + b)[1..] == a[1..] + b;
      DropSpacesAppend(a[1..], b);
      if !IsSpace(a[0]) {
        assert DropSpaces(a + b) == [a[0]] + DropSpaces(a[1..] + b);
      }
    } else {
      assert a + b == b;
    }
  }

  lemma {:induction false} DropSpacesOfWord(w: string)
    requires forall k :: 0 <= k < |w| ==> !IsSpace(w[k])
    ensures DropSpaces(w) == w
  {
    if w != [] {
      DropSpacesOfWord(w[1..]);
      assert w == [w[0]] + w[1..];
    }
  }

  /** Fields loses nothing but spaces: its words, put back together, are
      the non-space runes of the input in their original order. */
  lemma {:induction false} FieldsKeepsEveryRune(s: string)
    ensures Concat(Fields(s)) == DropSpaces(s)
    decreases |s|
  {
    if s != [] {
      if IsSpace(s[0]) {
        FieldsKeepsEveryRune(s[1..]);
      } else {
        var n := WordLen(s);
        FieldsKeepsEveryRune(s[n..]);
        assert s == s[..n] + s[n..];
        DropSpacesAppend(s[..n], s[n..]);
        DropSpacesOfWord(s[..n]);
        var ws := Fields(s);
        assert ws == [s[..n]] + Fields(s[n..]);
        assert ws[1..] == Fields(s[n..]);
      }
    }
  }

  /** Go's `len` counts bytes: a string of `n` copies of one rune is
      `n` times that rune's UTF-8 width long. */
  lemma {:induction false} Utf8LengthOfRepeat(c: char, n: nat)
    ensures Utf8Length(seq(n, _ => c)) == n * RuneLen(c)
  {
    if n > 0 {
      var s := seq(n, _ => c);
      assert s[1..] == seq(n - 1, _ => c);
      Utf8LengthOfRepeat(c, n - 1);
    }
  }
}
