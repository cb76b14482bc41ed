/** The URL form (src/components/UrlInput.tsx): its text field, its validity flag and what it submits. */
module UrlInput {
  import opened Wrappers
  import opened VideoId
  import opened TextTrim

  const ExampleUrls: seq<string> := ["https://www.youtube.com/watch?v=dQw4w9WgXcQ", "https://youtu.be/dQw4w9WgXcQ"]

  /** `validateUrl`: `regex.test` with the regular expression of `extractVideoId`, true when it matches anywhere. */
  predicate ValidateUrl(u: string) {
    exists i | 0 <= i <= |u| :: MatchAt(u, i).Some?
  }

  /** The form accepts exactly the URLs the controller can extract an id from. */
  lemma ValidateIffExtracts(u: string)
    ensures ValidateUrl(u) <==> ExtractVideoId(u).Some?
  {
    if ValidateUrl(u) {
      FirstMatchIsLeftmost(u, 0);
    }
  }

  /** A match inside a slice is a match in the whole string. */
  lemma MatchInSlice(s: string, a: nat, b: nat, i: nat)
    requires a <= b <= |s| && i <= b - a
    requires MatchAt(s[a..b], i).Some?
    ensures MatchAt(s, a + i).Some?
  {
    var t := s[a..b];
    var q: string;
    if StartsWithAt(t, i, WatchPrefix) {
      q := WatchPrefix;
    } else if StartsWithAt(t, i, ShortPrefix) {
      q := ShortPrefix;
    } else {
      q := EmbedPrefix;
    }
    PrefixesExclusive(t, i);
    assert PrefixAt(t, i) == Some(|q|);
    assert t[i + |q|] == s[a + i + |q|];
    PrefixInSlice(s, a, b, i, q);
    MatchAfterPrefix(s, a + i, q);
  }

  /** A prefix that occurs in a slice occurs at the corresponding position of the whole text. */
  lemma PrefixInSlice(s: string, a: nat, b: nat, i: nat, q: string)
    requires a <= b <= |s| && StartsWithAt(s[a..b], i, q)
    ensures StartsWithAt(s, a + i, q)
  {
    var t := s[a..b];
    forall k | 0 <= k < |q| ensures s[a + i..a + i + |q|][k] == q[k] {
      assert t[i..i + |q|][k] == t[i + k] == s[a + i + k];
    }
  }

  /** A URL that passes after trimming also passes untrimmed. */
  lemma TrimmedValidImpliesValid(u: string)
    requires ValidateUrl(Trim(u))
    ensures ValidateUrl(u)
  {
    var a, b := TrimIsSlice(u);
    var i :| 0 <= i <= |Trim(u)| && MatchAt(Trim(u), i).Some?;
    MatchInSlice(u, a, b, i);
  }

  /** Trimming "youtu.be/ " leaves "youtu.be/". */
  lemma TrimSpaceAfterShortPrefix()
    ensures Trim("youtu.be/ ") == ShortPrefix
  {
    var u := "youtu.be/ ";
    assert TrimStart(u) == u;
    assert TrimEnd(u[..9]) == u[..9];
    assert TrimEnd(u) == u[..9];
  }

  /** "youtu.be/" alone has no id after the prefix, so the pattern matches nowhere in it. */
  lemma ShortPrefixAloneInvalid()
    ensures !ValidateUrl(ShortPrefix)
  {
  }

  /**
   * The converse fails: the character class admits white space, so "youtu.be/" followed
   * by a space passes `validateUrl` while typing, but its trimmed form, which is what
   * submitting checks, does not.
   */
  lemma TypingAcceptsWhatSubmitRejects()
    ensures ValidateUrl("youtu.be/ ") && Trim("youtu.be/ ") != [] && !ValidateUrl(Trim("youtu.be/ "))
  {
    var u := "youtu.be/ ";
    assert StartsWithAt(u, 0, ShortPrefix);
    assert MatchAt(u, 0).Some?;
    TrimSpaceAfterShortPrefix();
    ShortPrefixAloneInvalid();
  }

  lemma WatchExampleExtracts(u: string)
    requires u == ExampleUrls[0]
    ensures ExtractVideoId(u) == Some("dQw4w9WgXcQ")
  {
    var www := "https://www.";
    assert forall j :: 0 <= j < |www| ==> www[j] != 'y';
    WatchExampleShape(u);
    ExtractAfterPrefix(www, WatchPrefix, "dQw4w9WgXcQ");
  }

  lemma WatchExampleShape(u: string)
    requires u == ExampleUrls[0]
    ensures u == "https://www." + WatchPrefix + "dQw4w9WgXcQ"
  {
  }

  lemma ShortExampleExtracts(u: string)
    requires u == ExampleUrls[1]
    ensures ExtractVideoId(u) == Some("dQw4w9WgXcQ")
  {
    var id := "dQw4w9WgXcQ";
    var scheme := "https://";
    assert forall j :: 0 <= j < |scheme| ==> scheme[j] != 'y';
    assert u == scheme + ShortPrefix + id;
    ExtractAfterPrefix(scheme, ShortPrefix, id);
  }

  /** Both example URLs carry the id "dQw4w9WgXcQ", so both pass `validateUrl`. */
  lemma ExampleExtracts(k: nat)
    requires k < |ExampleUrls|
    ensures ExtractVideoId(ExampleUrls[k]) == Some("dQw4w9WgXcQ")
    ensures ValidateUrl(ExampleUrls[k])
    ensures Trim(ExampleUrls[k]) != []
  {
    assert ExampleUrls[k][0] == 'h';
    if k == 0 {
      WatchExampleExtracts(ExampleUrls[k]);
    } else {
      ShortExampleExtracts(ExampleUrls[k]);
    }
    ValidateIffExtracts(ExampleUrls[k]);
  }

  /** Either example link, once in the field, is not blank and matches. */
  lemma ExampleReady(k: nat, u: string)
    requires k < |ExampleUrls| && u == ExampleUrls[k]
    ensures Trim(u) != [] && ValidateUrl(u)
  {
    ExampleExtracts(k);
  }

  class UrlForm {
    var url: string
    var isValid: bool

    /** The form's invariant: text that is not blank and not flagged matches the pattern as typed. */
    ghost predicate Valid()
      reads this
    {
      isValid && Trim(url) != [] ==> ValidateUrl(url)
    }

    constructor ()
      ensures url == "" && isValid
      ensures Valid()
    {
      url := "";
      isValid := true;
    }

    /** `handleSubmit`: trims the field and passes it to `onSubmit` (the result) only when it is non-empty and valid. */
    method HandleSubmit() returns (submitted: Option<string>)
      modifies this
      ensures url == old(url)
      ensures isValid <==> Trim(url) != [] && ValidateUrl(Trim(url))
      ensures submitted.Some? <==> isValid
      ensures submitted.Some? ==> submitted.value == Trim(url) && ExtractVideoId(submitted.value).Some?
      ensures Valid()
    {
      var trimmed := Trim(url);
      if trimmed == [] {
        isValid := false;
        return None;
      }
      if !ValidateUrl(trimmed) {
        isValid := false;
        return None;
      }
      isValid := true;
      ValidateIffExtracts(trimmed);
      TrimmedValidImpliesValid(url);
      submitted := Some(trimmed);
    }

    /** `handleInputChange`: stores the raw text; blank text is never flagged, other text is flagged when the untrimmed value fails. */
    method HandleInputChange(newUrl: string)
      modifies this
      ensures url == newUrl
      ensures !isValid <==> Trim(newUrl) != [] && !ValidateUrl(newUrl)
      ensures Valid()
    {
      url := newUrl;
      if Trim(newUrl) != [] && !ValidateUrl(newUrl) {
        isValid := false;
      } else {
        isValid := true;
      }
    }

    /** The handler of example button `index`: fills in that example and clears the flag. */
    method ChooseExample(index: nat)
      requires index < |ExampleUrls|
      modifies this
      ensures url == ExampleUrls[index] && isValid
      ensures SubmitEnabled(false)
      ensures Valid()
    {
      url := ExampleUrls[index];
      isValid := true;
      ExampleReady(index, url);
    }

    /** The submit button: disabled while the parent is busy, while the field is blank, or while the text is flagged. */
    predicate SubmitEnabled(disabled: bool)
      reads this
      ensures SubmitEnabled(disabled) && Valid() ==> ValidateUrl(url)
    {
      !(disabled || Trim(url) == [] || !isValid)
    }
  }
}
