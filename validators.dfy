/**
 * The lesson video-link validator (`validate_youtube`, lms/validators.py).
 *
 * A link is accepted when it is falsy (absent or the empty string) or when the
 * text "youtube.com" occurs anywhere in it; otherwise a validation error is
 * raised. Accepted values are returned unchanged.
 */
module Validators {
  import opened Wrappers

  /** The fragment every non-empty video link must contain. */
  const YoutubeHost: string := "youtube.com"

  /** The message carried by the rejection. */
  const YoutubeOnlyMessage: string := "Разрешены ссылки только на youtube.com"

  /** DRF's `ValidationError`, reduced to its message. */
  datatype ValidationError = ValidationError(message: string)

  /** `t` sits in `s` starting at index `i`. */
  ghost predicate OccursAt(t: string, s: string, i: int) {
    0 <= i && i + |t| <= |s| && s[i..i + |t|] == t
  }

  /** Python's `t in s` on two strings, as a reference definition. */
  ghost predicate IsSubstring(t: string, s: string) {
    exists i :: OccursAt(t, s, i)
  }

  /** Python truthiness of an optional string: `None` and `""` are falsy. */
  predicate Truthy(value: Option<string>) {
    value.Some? && value.value != []
  }

  lemma OccursAtTail(t: string, s: string, i: int)
    requires s != [] && 0 <= i
    ensures OccursAt(t, s[1..], i) <==> OccursAt(t, s, i + 1)
  {
  }

  lemma OccurrenceStartsWithHead(t: string, s: string, i: int)
    requires t != []
    ensures OccursAt(t, s, i) ==> s[i] == t[0]
  {
  }

  /** A left-to-right search for `t` in `s`, the executable form of `t in s`. */
  function Contains(s: string, t: string): (found: bool)
    ensures found <==> IsSubstring(t, s)
  {
    if |s| < |t| then
      assert forall i :: !OccursAt(t, s, i);
      false
    else if t <= s then
      assert OccursAt(t, s, 0);
      true
    else
      var rest := Contains(s[1..], t);
      assert rest <==> IsSubstring(t, s) by {
        forall i | 0 <= i ensures OccursAt(t, s[1..], i) <==> OccursAt(t, s, i + 1) {
          OccursAtTail(t, s, i);
        }
        assert !OccursAt(t, s, 0);
        if IsSubstring(t, s) {
          var j :| OccursAt(t, s, j);
          assert OccursAt(t, s[1..], j - 1);
        }
      }
      rest
  }

  /**
   * `validate_youtube(value)`: raise when the value is truthy and does not
   * contain "youtube.com", otherwise hand the value back.
   */
  function ValidateYoutube(value: Option<string>): (r: Result<Option<string>, ValidationError>)
    ensures r.Ok? <==> value.None? || value.value == [] || IsSubstring(YoutubeHost, value.value)
    ensures r.Ok? ==> r.value == value
    ensures r.Err? ==> r.error == ValidationError(YoutubeOnlyMessage)
  {
    if Truthy(value) && !Contains(value.value, YoutubeHost) then
      Err(ValidationError(YoutubeOnlyMessage))
    else
      Ok(value)
  }

  /** Absent and empty links are accepted and returned as they are. */
  lemma FalsyAccepted()
    ensures ValidateYoutube(None) == Ok(None)
    ensures ValidateYoutube(Some("")) == Ok(Some(""))
  {
  }

  /** Validating an accepted value again accepts it again, with the same value. */
  lemma ValidateYoutubeIdempotent(value: Option<string>)
    requires ValidateYoutube(value).Ok?
    ensures ValidateYoutube(ValidateYoutube(value).value) == ValidateYoutube(value)
  {
  }

  /**
   * The test is on the text, not on the host: anything wrapped around a
   * non-empty accepted link is accepted as well.
   */
  lemma AcceptedUnderWrapping(prefix: string, link: string, suffix: string)
    requires link != [] && ValidateYoutube(Some(link)).Ok?
    ensures ValidateYoutube(Some(prefix + link + suffix)) == Ok(Some(prefix + link + suffix))
  {
    var i :| OccursAt(YoutubeHost, link, i);
    var s := prefix + link + suffix;
    assert s[|prefix| + i..|prefix| + i + |YoutubeHost|] == link[i..i + |YoutubeHost|];
    assert OccursAt(YoutubeHost, s, |prefix| + i);
  }

  /** A link to another host that merely mentions "youtube.com" in its query is accepted. */
  lemma OtherHostMentioningYoutubeAccepted()
    ensures ValidateYoutube(Some("https://evil.example/?youtube.com")).Ok?
  {
    AcceptedUnderWrapping("https://evil.example/?", YoutubeHost, "");
    assert "https://evil.example/?" + YoutubeHost + "" == "https://evil.example/?youtube.com";
  }

  /** The test is case-sensitive: a non-empty link without a lower-case 'y' is rejected. */
  lemma NoLowercaseYRejected(link: string)
    requires link != [] && 'y' !in link
    ensures ValidateYoutube(Some(link)) == Err(ValidationError(YoutubeOnlyMessage))
  {
    forall i ensures OccursAt(YoutubeHost, link, i) ==> link[i] == 'y' {
      OccurrenceStartsWithHead(YoutubeHost, link, i);
    }
  }

  /** An upper-case spelling of the host is rejected. */
  lemma UpperCaseHostRejected()
    ensures ValidateYoutube(Some("YOUTUBE.COM")).Err?
  {
    NoLowercaseYRejected("YOUTUBE.COM");
  }
}
