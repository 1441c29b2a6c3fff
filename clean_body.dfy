/** The profanity filter applied to every chirp before it is stored
    (clean_body.go). */
module CleanBody {
  import opened Strings

  /** What a profane word is replaced with. */
  const Mask: string := "****"

  /** A word is profane when its lower-case form is one of the three
      banned words; the comparison is with the whole word. */
  predicate IsProfane(word: string): (r: bool)
    ensures r ==> IsWord(word)
    ensures r ==> |word| == 9 || |word| == 8 || |word| == 6
  {
    var lower := ToLower(word);
    assert IsBanned(lower) ==> IsWord(word) by {
      if IsBanned(lower) {
        LowerLettersAreNotSpaces(word);
      }
    }
    IsBanned(lower)
  }

  /** One of the three banned words, in lower case. */
  predicate IsBanned(lower: string) {
    lower == "kerfuffle" || lower == "sharbert" || lower == "fornax"
  }

  /** A word whose lower case is a banned word holds no space: every rune
      of it lowers to an ASCII letter, and no such rune is a space. */
  lemma LowerLettersAreNotSpaces(word: string)
    requires IsBanned(ToLower(word))
    ensures IsWord(word)
  {
    var lower := ToLower(word);
    assert forall k :: 0 <= k < |lower| ==> 'a' <= lower[k] <= 'z';
    forall k | 0 <= k < |word|
      ensures !IsSpace(word[k])
    {
      assert lower[k] == LowerRune(word[k]);
      assert 'a' <= lower[k] <= 'z';
    }
  }

  /** The replacement applied to one word. */
  function Censor(word: string): string {
    if IsProfane(word) then Mask else word
  }

  /** Censor applied to every word, positions kept. */
  function CensorAll(words: seq<string>): seq<string> {
    seq(|words|, i requires 0 <= i < |words| => Censor(words[i]))
  }

  /** What `cleanBody` returns: split on spaces, censor, join with one space. */
  function Clean(body: string): string {
    Join(CensorAll(Fields(body)), " ")
  }

  /** `cleanBody`: overwrites each profane word of the slice returned by
      `strings.Fields` in place, then joins the slice with single spaces. */
  method CleanBody(body: string) returns (cleaned: string)
    ensures cleaned == Clean(body)
  {
    var words := Fields(body);
    ghost var original := words;
    for i := 0 to |words|
      invariant |words| == |original|
      invariant forall k :: 0 <= k < i ==> words[k] == Censor(original[k])
      invariant forall k :: i <= k < |words| ==> words[k] == original[k]
    {
      var lower := ToLower(words[i]);
      if lower == "kerfuffle" || lower == "sharbert" || lower == "fornax" {
        words := words[i := Mask];
      }
    }
    assert words == CensorAll(original);
    cleaned := Join(words, " ");
  }

  // ---------------------------------------------------------------------
  // Lemmas

  lemma MaskIsNotProfane()
    ensures IsWord(Mask) && !IsProfane(Mask)
  {
    assert ToLower(Mask)[0] == '*';
  }

  /** Censoring keeps every word a word and removes every profane one. */
  lemma CensorAllWords(words: seq<string>)
    requires AllWords(words)
    ensures AllWords(CensorAll(words))
    ensures forall i :: 0 <= i < |words| ==> !IsProfane(CensorAll(words)[i])
  {
    MaskIsNotProfane();
  }

  /** The words of the cleaned text are the words of the input, one for
      one and in the same positions: a word becomes "****" when it is
      profane and is otherwise kept exactly as written. */
  lemma CleanWordByWord(body: string)
    ensures Fields(Clean(body)) == CensorAll(Fields(body))
    ensures |Fields(Clean(body))| == |Fields(body)|
    ensures forall i :: 0 <= i < |Fields(body)| ==>
      Fields(Clean(body))[i] == (if IsProfane(Fields(body)[i]) then Mask else Fields(body)[i])
  {
    CensorAllWords(Fields(body));
    FieldsOfJoin(CensorAll(Fields(body)));
  }

  /** No banned word, in any letter case, is left as a word of the output. */
  lemma NoProfanitySurvives(body: string)
    ensures forall i :: 0 <= i < |Fields(Clean(body))| ==> !IsProfane(Fields(Clean(body))[i])
  {
    CleanWordByWord(body);
    CensorAllWords(Fields(body));
  }

  /** The output has no leading or trailing space and exactly one ' '
      between neighbouring words; it is empty exactly when the input is
      empty or holds only spaces. */
  lemma CleanLayout(body: string)
    ensures var r := Clean(body);
      && (r == "" <==> forall k :: 0 <= k < |body| ==> IsSpace(body[k]))
      && (r != "" ==> !IsSpace(r[0]) && !IsSpace(r[|r| - 1]))
      && (forall k :: 0 <= k < |r| && IsSpace(r[k]) ==>
            r[k] == ' ' && 0 < k < |r| - 1 && !IsSpace(r[k - 1]) && !IsSpace(r[k + 1]))
  {
    CensorAllWords(Fields(body));
    JoinLayout(CensorAll(Fields(body)));
    FieldsEmpty(body);
  }

  /** Cleaning a cleaned text changes nothing. */
  lemma CleanIdempotent(body: string)
    ensures Clean(Clean(body)) == Clean(body)
  {
    CleanWordByWord(body);
    var words := Fields(body);
    MaskIsNotProfane();
    assert CensorAll(CensorAll(words)) == CensorAll(words);
  }

  /** The case of the letters does not matter, punctuation attached to a
      word does, and so does the Kelvin sign, whose lower case is 'k'. */
  lemma CensorExamples()
    ensures Censor("KerFuffle") == Mask
    ensures Censor("SHARBERT") == Mask
    ensures Censor("\U{212A}erfuffle") == Mask
    ensures Censor("kerfuffle!") == "kerfuffle!"
    ensures Censor("fornaxes") == "fornaxes"
  {
    assert ToLower("KerFuffle") == "kerfuffle";
    assert ToLower("SHARBERT") == "sharbert";
    assert ToLower("\U{212A}erfuffle") == "kerfuffle";
    assert |ToLower("kerfuffle!")| == 10;
    assert |ToLower("fornaxes")| == 8 && ToLower("fornaxes")[0] == 'f';
  }
}
