/** The profile page's avatar initials and displayed name. */
module Profile {
  import opened Wrappers
  import opened JsString

  const Space: string := " "
  const DefaultFullName: string := "Пользователь"
  const MaxInitials: nat := 2

  /** `n[0]` joined into a string: the first character of a word, or nothing for an
      empty word (`undefined` joins as the empty string). */
  function FirstChar(word: string): (r: string)
    ensures |r| <= 1
    ensures r == [] <==> word == []
  {
    if |word| == 0 then [] else [word[0]]
  }

  /** `.map(n => n[0]).join('')`. */
  function FirstChars(words: seq<string>): string
    decreases |words|
  {
    if |words| == 0 then [] else FirstChar(words[0]) + FirstChars(words[1..])
  }

  /** `toUpperCase`, given the case mapping of each character, which may turn one
      character into several. */
  function UpperCase(s: string, upper: char -> string): string
    decreases |s|
  {
    if |s| == 0 then [] else upper(s[0]) + UpperCase(s[1..], upper)
  }

  /** `slice(0, n)`. */
  function Take(s: string, n: nat): (r: string)
    ensures |r| <= n && |r| <= |s| && r == s[..|r|]
    ensures |s| >= n ==> |r| == n
    ensures |s| <= n ==> r == s
  {
    if |s| <= n then s else s[..n]
  }

  /** `getInitials`: split on single spaces, take each word's first character,
      upper-case, keep the first two characters. */
  function GetInitials(name: string, upper: char -> string): (r: string)
    ensures var full := UpperCase(FirstChars(Split(name, Space)), upper);
            && |r| <= MaxInitials && |r| <= |full| && r == full[..|r|]
            && (|full| >= MaxInitials ==> |r| == MaxInitials)
            && (|full| <= MaxInitials ==> r == full)
  {
    Take(UpperCase(FirstChars(Split(name, Space)), upper), MaxInitials)
  }

  // A reference definition of the initials that scans characters instead of words.

  /** The characters of `s` that start a word: not a space, and at the beginning or
      right after a space. `afterSpace` says whether the text before `s` ended with
      a space (or was empty). */
  function WordStartsFrom(s: string, afterSpace: bool): string
    decreases |s|
  {
    if |s| == 0 then []
    else (if s[0] != ' ' && afterSpace then [s[0]] else []) + WordStartsFrom(s[1..], s[0] == ' ')
  }

  function WordStarts(s: string): string
  {
    WordStartsFrom(s, true)
  }

  predicate NoSpace(s: string)
  {
    forall k :: 0 <= k < |s| ==> s[k] != ' '
  }

  lemma {:induction false} NoWordStartsInsideWord(s: string)
    requires NoSpace(s)
    ensures WordStartsFrom(s, false) == []
    decreases |s|
  {
    if |s| > 0 {
      NoWordStartsInsideWord(s[1..]);
    }
  }

  /** Inside a word, nothing starts until after the space that ends it. */
  lemma {:induction false} SkipRestOfWord(s: string, i: nat, j: nat)
    requires 1 <= j <= i < |s| && s[i] == ' '
    requires forall k :: 0 <= k < i ==> s[k] != ' '
    ensures WordStartsFrom(s[j..], false) == WordStartsFrom(s[i + 1..], true)
    decreases i - j
  {
    assert s[j..][1..] == s[j + 1..];
    if j < i {
      SkipRestOfWord(s, i, j + 1);
    }
  }

  /** The one-character separator occurs exactly where there is a space. */
  lemma SpaceOccursAt(s: string, k: nat)
    requires k < |s|
    ensures OccursAt(s, Space, k) <==> s[k] == ' '
  {
    assert s[k..k + 1] == [s[k]];
  }

  /** The index of the first space, if any, as a single-character separator. */
  lemma FirstSpace(s: string, i: nat)
    requires IndexOf(s, Space) == Some(i)
    ensures i < |s| && s[i] == ' '
    ensures forall k :: 0 <= k < i ==> s[k] != ' '
  {
    SpaceOccursAt(s, i);
    forall k | 0 <= k < i
      ensures s[k] != ' '
    {
      SpaceOccursAt(s, k);
    }
  }

  /** Taking the first character of every space-separated word picks exactly the
      characters that start a word, in order: empty words from leading, trailing or
      repeated spaces contribute nothing. */
  lemma {:induction false} FirstCharsAreWordStarts(s: string)
    ensures FirstChars(Split(s, Space)) == WordStarts(s)
    decreases |s|
  {
    var idx := IndexOf(s, Space);
    if idx.None? {
      assert Split(s, Space) == [s];
      assert FirstChars([s]) == FirstChar(s);
      assert NoSpace(s) by {
        forall k | 0 <= k < |s|
          ensures s[k] != ' '
        {
          SpaceOccursAt(s, k);
        }
      }
      if |s| > 0 {
        NoWordStartsInsideWord(s[1..]);
      }
    } else {
      var i := idx.value;
      FirstSpace(s, i);
      SplitStep(s, Space, i);
      var rest := s[i + 1..];
      FirstCharsAreWordStarts(rest);
      var parts := Split(s, Space);
      assert parts[0] == s[..i] && parts[1..] == Split(rest, Space);
      assert FirstChars(parts) == FirstChar(s[..i]) + FirstChars(Split(rest, Space));
      if i == 0 {
        assert s[1..] == rest;
      } else {
        SkipRestOfWord(s, i, 1);
      }
    }
  }

  /** The initials are the first two characters of the upper-cased word starts. */
  lemma InitialsFromWordStarts(name: string, upper: char -> string)
    ensures GetInitials(name, upper) == Take(UpperCase(WordStarts(name), upper), MaxInitials)
  {
    FirstCharsAreWordStarts(name);
  }

  /** An empty name, or one made only of spaces, has no initials. */
  lemma NoWordsNoInitials(name: string, upper: char -> string)
    requires forall k :: 0 <= k < |name| ==> name[k] == ' '
    ensures GetInitials(name, upper) == ""
  {
    InitialsFromWordStarts(name, upper);
    OnlySpacesNoWordStarts(name, true);
  }

  lemma {:induction false} OnlySpacesNoWordStarts(s: string, afterSpace: bool)
    requires forall k :: 0 <= k < |s| ==> s[k] == ' '
    ensures WordStartsFrom(s, afterSpace) == []
    decreases |s|
  {
    if |s| > 0 {
      OnlySpacesNoWordStarts(s[1..], true);
    }
  }

  /** The name the page shows: `full_name`, or the default when it is absent or
      empty. */
  function FullName(fullName: Option<string>): (r: string)
    ensures r != ""
    ensures Present(fullName) ==> r == fullName.value
    ensures !Present(fullName) ==> r == DefaultFullName
  {
    if Present(fullName) then fullName.value else DefaultFullName
  }
}
