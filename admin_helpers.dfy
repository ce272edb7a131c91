/** The admin pages' string helpers (`admin/includes/functions.js`): input
    sanitising, slug generation, the e-mail check and the image-file check.
    Each is a pure function of its input; the alert `validateImageFile` shows
    is represented by the reason it returns. */
module AdminHelpers {
  import opened Util
  import opened Text

  // ----- sanitizeInput -----------------------------------------------------

  predicate NotAngle(c: char) {
    c != '<' && c != '>'
  }

  /** `input.replace(/[<>]/g, '')`. */
  function SanitizeInput(input: string): (r: string)
    ensures '<' !in r && '>' !in r
    ensures forall c :: NotAngle(c) ==> multiset(r)[c] == multiset(input)[c]
  {
    var r := Filter(input, NotAngle);
    KeepsOtherCharacters(input);
    r
  }

  /** Filtering out the angle brackets keeps every other character as many times as it occurs. */
  lemma {:induction false} KeepsOtherCharacters(input: string)
    ensures forall c :: NotAngle(c) ==> multiset(Filter(input, NotAngle))[c] == multiset(input)[c]
  {
    if input != [] {
      KeepsOtherCharacters(input[1..]);
      assert input == [input[0]] + input[1..];
    }
  }

  /** Sanitising works character by character, so it keeps the order of what it keeps. */
  lemma SanitizeConcat(a: string, b: string)
    ensures SanitizeInput(a + b) == SanitizeInput(a) + SanitizeInput(b)
  {
    FilterConcat(a, b, NotAngle);
  }

  /** Text without angle brackets is left as it is. */
  lemma SanitizeKeepsClean(input: string)
    requires '<' !in input && '>' !in input
    ensures SanitizeInput(input) == input
  {
    FilterKeepsAll(input, NotAngle);
  }

  /** Sanitising twice is sanitising once. */
  lemma SanitizeIdempotent(input: string)
    ensures SanitizeInput(SanitizeInput(input)) == SanitizeInput(input)
  {
    SanitizeKeepsClean(SanitizeInput(input));
  }

  // ----- generateSlug ------------------------------------------------------

  /** JavaScript's `\w`: an ASCII letter, digit or `_`. */
  predicate IsWordChar(c: char) {
    'a' <= c <= 'z' || 'A' <= c <= 'Z' || '0' <= c <= '9' || c == '_'
  }

  predicate WordOrSpace(c: char) {
    IsWordChar(c) || c == ' '
  }

  predicate IsPlainSpace(c: char) {
    c == ' '
  }

  /** A character a generated slug may hold: `[a-z0-9_-]`. */
  predicate SlugChar(c: char) {
    'a' <= c <= 'z' || '0' <= c <= '9' || c == '_' || c == '-'
  }

  /** `text.toLowerCase().replace(/[^\w ]+/g, '').replace(/ +/g, '-')`. */
  function GenerateSlug(text: string): (r: string)
    ensures forall i :: 0 <= i < |r| ==> SlugChar(r[i])
    ensures NoDoubleDash(r)
  {
    var kept := Filter(Lower(text), WordOrSpace);
    assert forall i :: 0 <= i < |kept| ==> kept[i] != '-' && (IsPlainSpace(kept[i]) || SlugChar(kept[i])) by {
      forall i | 0 <= i < |kept|
        ensures kept[i] != '-' && (IsPlainSpace(kept[i]) || SlugChar(kept[i]))
      {
        var k :| 0 <= k < |Lower(text)| && Lower(text)[k] == kept[i];
        assert kept[i] == LowerChar(text[k]);
      }
    }
    CollapseNoDoubleDash(kept, IsPlainSpace);
    CollapseRuns(kept, IsPlainSpace)
  }

  /** Lower-casing keeps a text of word characters and spaces one. */
  lemma LowerKeepsWordOrSpace(name: string)
    requires forall i :: 0 <= i < |name| ==> WordOrSpace(name[i])
    ensures forall i :: 0 <= i < |Lower(name)| ==> WordOrSpace(Lower(name)[i])
  {
    var low := Lower(name);
    forall i | 0 <= i < |low|
      ensures WordOrSpace(low[i])
    {
      assert low[i] == LowerChar(name[i]);
    }
  }

  /** In single-spaced text every plain space stands alone. */
  lemma PlainSpacesIsolated(s: string)
    requires SingleSpaced(s)
    ensures forall i :: 0 <= i < |s| && IsPlainSpace(s[i]) ==> s[i] == ' ' && (i + 1 == |s| || !IsPlainSpace(s[i + 1]))
  {
    forall i | 0 <= i < |s| && IsPlainSpace(s[i])
      ensures i + 1 == |s| || !IsPlainSpace(s[i + 1])
    {
      assert IsSpace(s[i]);
    }
  }

  /** On a single-spaced name of word characters and spaces, the admin slug is
      the slug the category handlers store. */
  lemma SlugAgreesWithCategorySlug(name: string)
    requires forall i :: 0 <= i < |name| ==> WordOrSpace(name[i])
    requires SingleSpaced(name)
    ensures GenerateSlug(name) == CategorySlug(name)
  {
    var low := Lower(name);
    LowerKeepsWordOrSpace(name);
    FilterKeepsAll(low, WordOrSpace);
    LowerKeepsSingleSpaced(name);
    CollapseSingleSpaces(low);
    PlainSpacesIsolated(low);
    CollapseIsolatedSpaces(low, IsPlainSpace);
    calc {
      GenerateSlug(name);
      CollapseRuns(Filter(low, WordOrSpace), IsPlainSpace);
      CollapseRuns(low, IsPlainSpace);
      ReplaceChar(low, ' ', '-');
      CollapseRuns(low, IsSpace);
      CategorySlug(name);
    }
  }

  // HyphenDropped through SlugOfHyphenated each settle one step of SlugOfSlugDiffers
  // below on its concrete string; they state nothing further.

  lemma HyphenDropped()
    ensures Filter("a-b", WordOrSpace) == "ab"
  {
    FilterDropsMiddle('a', '-', 'b', WordOrSpace);
  }

  lemma SpaceKept()
    ensures Filter("a b", WordOrSpace) == "a b"
  {
    FilterKeepsThree('a', ' ', 'b', WordOrSpace);
  }

  lemma LowerOfSpaced()
    ensures Lower("a b") == "a b"
  {
  }

  lemma LowerOfHyphenated()
    ensures Lower("a-b") == "a-b"
  {
  }

  lemma SpaceReplaced()
    ensures ReplaceChar("a b", ' ', '-') == "a-b"
  {
  }

  lemma NoSpaceToReplace()
    ensures ReplaceChar("ab", ' ', '-') == "ab"
  {
  }

  lemma SpacedCollapsed()
    ensures CollapseRuns("a b", IsPlainSpace) == "a-b"
  {
    CollapseIsolatedSpaces("a b", IsPlainSpace);
    SpaceReplaced();
  }

  lemma PlainCollapsed()
    ensures CollapseRuns("ab", IsPlainSpace) == "ab"
  {
    CollapseIsolatedSpaces("ab", IsPlainSpace);
    NoSpaceToReplace();
  }

  lemma SlugOfSpaced()
    ensures GenerateSlug("a b") == "a-b"
  {
    LowerOfSpaced();
    SpaceKept();
    SpacedCollapsed();
    calc {
      GenerateSlug("a b");
      CollapseRuns(Filter(Lower("a b"), WordOrSpace), IsPlainSpace);
      CollapseRuns(Filter("a b", WordOrSpace), IsPlainSpace);
      CollapseRuns("a b", IsPlainSpace);
    }
  }

  lemma SlugOfHyphenated()
    ensures GenerateSlug("a-b") == "ab"
  {
    LowerOfHyphenated();
    HyphenDropped();
    PlainCollapsed();
    calc {
      GenerateSlug("a-b");
      CollapseRuns(Filter(Lower("a-b"), WordOrSpace), IsPlainSpace);
      CollapseRuns(Filter("a-b", WordOrSpace), IsPlainSpace);
      CollapseRuns("ab", IsPlainSpace);
    }
  }

  /** Generating a slug is not idempotent: the slug of `"a b"` is `"a-b"`, and
      a second pass drops its `-`, giving `"ab"`. */
  lemma SlugOfSlugDiffers()
    ensures GenerateSlug("a b") == "a-b"
    ensures GenerateSlug(GenerateSlug("a b")) == "ab"
  {
    SlugOfSpaced();
    SlugOfHyphenated();
  }

  // ----- validateEmail -----------------------------------------------------

  /** No whitespace and no `@` anywhere in `s[lo..hi]`: the class `[^\s@]`. */
  predicate PlainRange(s: string, lo: int, hi: int)
    requires 0 <= lo <= hi <= |s|
  {
    forall i :: lo <= i < hi ==> !IsSpace(s[i]) && s[i] != '@'
  }

  /** `/^[^\s@]+@[^\s@]+\.[^\s@]+$/.test(email)`: the text splits at an `@` at
      `k` and a `.` at `j` into three non-empty runs of `[^\s@]`. */
  predicate ValidateEmail(email: string) {
    exists k, j :: 0 < k && k + 1 < j && j + 1 < |email| && email[k] == '@' && email[j] == '.'
      && PlainRange(email, 0, k) && PlainRange(email, k + 1, j) && PlainRange(email, j + 1, |email|)
  }

  /** The address has no whitespace and exactly one `@`, not at the start. */
  predicate OneAt(email: string, k: int) {
    0 < k < |email| && email[k] == '@'
    && forall i :: 0 <= i < |email| && email[i] == '@' ==> i == k
  }

  /** The e-mail check in words: no whitespace, exactly one `@` with a
      non-empty part before it, and a `.` in the domain that is neither its
      first nor its last character. */
  predicate EmailShape(email: string) {
    NoSpace(email)
    && (exists k :: 0 < k < |email| && OneAt(email, k)
          && (exists j :: k + 1 < j < |email| - 1 && email[j] == '.'))
  }

  /** An address the pattern accepts has the shape. */
  lemma ValidEmailHasShape(email: string)
    requires ValidateEmail(email)
    ensures EmailShape(email)
  {
    var k, j :| 0 < k && k + 1 < j && j + 1 < |email| && email[k] == '@' && email[j] == '.'
      && PlainRange(email, 0, k) && PlainRange(email, k + 1, j) && PlainRange(email, j + 1, |email|);
    assert OneAt(email, k);
    assert NoSpace(email) by {
      forall i | 0 <= i < |email|
        ensures !IsSpace(email[i])
      {
        if i != k && i != j {
          assert PlainRange(email, 0, k) && PlainRange(email, k + 1, j) && PlainRange(email, j + 1, |email|);
        }
      }
    }
  }

  /** An address with the shape is one the pattern accepts. */
  lemma ShapedEmailIsValid(email: string)
    requires EmailShape(email)
    ensures ValidateEmail(email)
  {
    var k :| 0 < k < |email| && OneAt(email, k) && exists j :: k + 1 < j < |email| - 1 && email[j] == '.';
    var j :| k + 1 < j < |email| - 1 && email[j] == '.';
    assert PlainRange(email, 0, k) && PlainRange(email, k + 1, j) && PlainRange(email, j + 1, |email|);
  }

  /** The pattern accepts exactly the addresses with the shape. */
  lemma ValidateEmailIff(email: string)
    ensures ValidateEmail(email) <==> EmailShape(email)
  {
    if ValidateEmail(email) {
      ValidEmailHasShape(email);
    }
    if EmailShape(email) {
      ShapedEmailIsValid(email);
    }
  }

  // ----- validateImageFile -------------------------------------------------

  const AllowedTypes: seq<string> := ["image/jpeg", "image/jpg", "image/png", "image/gif"]

  /** 5 MiB. */
  const MaxImageSize: int := 5 * 1024 * 1024

  /** The outcome of the check, and so which alert is shown. */
  datatype ImageCheck = Accepted | WrongType | TooLarge

  /** `validateImageFile`: the type is checked first, then the size; a file of
      exactly the maximum size passes. */
  function ValidateImageFile(fileType: string, size: int): (r: ImageCheck)
    ensures r == Accepted <==> fileType in AllowedTypes && size <= MaxImageSize
    ensures r == WrongType <==> fileType !in AllowedTypes
    ensures r == TooLarge <==> fileType in AllowedTypes && size > MaxImageSize
  {
    if fileType !in AllowedTypes then WrongType
    else if size > MaxImageSize then TooLarge
    else Accepted
  }

  /** The limit is inclusive: 5242880 bytes pass, one byte more does not. */
  lemma ImageSizeLimit()
    ensures ValidateImageFile("image/png", 5242880) == Accepted
    ensures ValidateImageFile("image/png", 5242881) == TooLarge
    ensures ValidateImageFile("image/webp", 1) == WrongType
  {
    assert "image/webp" != "image/jpeg" && "image/webp" != "image/jpg";
    assert "image/webp" != "image/png" && "image/webp" != "image/gif";
  }
}
