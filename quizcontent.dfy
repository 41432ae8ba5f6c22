/**
 * The cleanup `generate_quiz_content` (core/ai_utils.py) applies to the text the
 * AI model returns before handing it to the JSON decoder: drop a leading
 * "```json", then a leading "```", then a trailing "```", then strip outer
 * whitespace. An error from the text source is passed through untouched.
 */
module QuizContent {
  import opened Wrappers

  const JsonFence: string := "```json"
  const Fence: string := "```"

  predicate StartsWith(s: string, prefix: string)
  {
    |prefix| <= |s| && s[..|prefix|] == prefix
  }

  predicate EndsWith(s: string, suffix: string)
  {
    |suffix| <= |s| && s[|s| - |suffix|..] == suffix
  }

  /** Drops a leading "```json" (seven characters) if the text opens with one. */
  function DropJsonFence(text: string): (r: string)
    ensures StartsWith(text, JsonFence) ==> JsonFence + r == text
    ensures !StartsWith(text, JsonFence) ==> r == text
  {
    if StartsWith(text, JsonFence) then text[7..] else text
  }

  /** Drops a leading "```" (three characters) if the text opens with one. */
  function DropLeadingFence(text: string): (r: string)
    ensures StartsWith(text, Fence) ==> Fence + r == text
    ensures !StartsWith(text, Fence) ==> r == text
  {
    if StartsWith(text, Fence) then text[3..] else text
  }

  /** Drops a trailing "```" (three characters) if the text ends with one. */
  function DropTrailingFence(text: string): (r: string)
    ensures EndsWith(text, Fence) ==> r + Fence == text
    ensures !EndsWith(text, Fence) ==> r == text
  {
    if EndsWith(text, Fence) then text[..|text| - 3] else text
  }

  /**
   * The three fence steps in the order `generate_quiz_content` runs them: the
   * text it holds after its last fence check. At most 13 characters go.
   */
  function StripFences(raw: string): (r: string)
    ensures |raw| - 13 <= |r| <= |raw|
  {
    DropTrailingFence(DropLeadingFence(DropJsonFence(raw)))
  }

  /** The characters Python's `str.isspace` accepts within ASCII. */
  predicate IsSpace(c: char): (b: bool)
    ensures b ==> c <= ' '
    ensures c == ' ' || c == '\t' || c == '\n' || c == '\r' ==> b
  {
    c == ' ' || ('\t' <= c <= '\r') || ('\U{1C}' <= c <= '\U{1F}')
  }

  /** The length of the leading whitespace run. */
  function LeadingSpaces(t: string): (n: nat)
    ensures n <= |t|
    ensures forall k :: 0 <= k < n ==> IsSpace(t[k])
    ensures n < |t| ==> !IsSpace(t[n])
  {
    if t == [] || !IsSpace(t[0]) then 0 else 1 + LeadingSpaces(t[1..])
  }

  /** Where the trailing whitespace run begins. */
  function TrailingStart(t: string): (m: nat)
    ensures m <= |t|
    ensures forall k :: m <= k < |t| ==> IsSpace(t[k])
    ensures 0 < m ==> !IsSpace(t[m - 1])
  {
    if t == [] || !IsSpace(t[|t| - 1]) then |t| else TrailingStart(t[..|t| - 1])
  }

  /** `str.strip()` with no argument. */
  function Strip(t: string): (r: string)
    ensures |r| <= |t|
    ensures |r| > 0 ==> !IsSpace(r[0]) && !IsSpace(r[|r| - 1])
  {
    var u := t[LeadingSpaces(t)..];
    assert |u| > 0 ==> !IsSpace(u[0]);
    u[..TrailingStart(u)]
  }

  /** The string handed to `json.loads`. */
  function CleanJsonText(raw: string): (r: string)
    ensures |r| <= |raw|
    ensures |r| > 0 ==> !IsSpace(r[0]) && !IsSpace(r[|r| - 1])
  {
    Strip(StripFences(raw))
  }

  /** What the text source (`generate_text_gemini`) answered. */
  datatype TextReply = Reply(text: string) | Failed(error: string)

  /**
   * `generate_quiz_content` from the text source's answer on, with the JSON
   * decoder as a parameter that yields the data or the exception's message.
   */
  function GenerateQuizContent<D>(reply: TextReply, decode: string -> Result<D, string>): (r: Result<D, string>)
    ensures reply.Failed? ==> r == Err(reply.error)
    ensures reply.Reply? && r.Ok? ==> decode(CleanJsonText(reply.text)) == Ok(r.value)
    ensures reply.Reply? && r.Err? ==>
      && decode(CleanJsonText(reply.text)).Err?
      && r.error == "JSON Decode Error: " + decode(CleanJsonText(reply.text)).error
                    + " - Content: " + StripFences(reply.text)
  {
    match reply
    case Failed(error) => Err(error)
    case Reply(text) =>
      var cleaned := StripFences(text);
      match decode(Strip(cleaned))
      case Ok(data) => Ok(data)
      case Err(e) => Err("JSON Decode Error: " + e + " - Content: " + cleaned)
  }

  // ---------------------------------------------------------------------------
  // The fence steps

  /**
   * The fence steps keep a contiguous slice of the raw text: at most ten
   * characters (one "```json" and one "```") go from the front and at most
   * three (one "```") from the back.
   */
  lemma StripFencesIsSlice(raw: string)
    ensures |StripFences(raw)| <= |raw|
    ensures exists i, j :: 0 <= i <= j <= |raw| && i <= 10 && |raw| - 3 <= j && StripFences(raw) == raw[i..j]
  {
    var i1 := if StartsWith(raw, JsonFence) then 7 else 0;
    var a := raw[i1..];
    assert DropJsonFence(raw) == a;
    var i2 := if StartsWith(a, Fence) then i1 + 3 else i1;
    var b := raw[i2..];
    assert DropLeadingFence(a) == b by {
      if StartsWith(a, Fence) {
        assert a[3..] == b;
      }
    }
    if EndsWith(b, Fence) {
      var j := |raw| - 3;
      assert b[..|b| - 3] == raw[i2..j];
      assert StripFences(raw) == raw[i2..j];
    } else {
      assert b == raw[i2..|raw|];
      assert StripFences(raw) == raw[i2..|raw|];
    }
  }

  /** Text opening with "```json" loses exactly those seven characters in the first step. */
  lemma DropJsonFenceInverse(body: string)
    ensures DropJsonFence(JsonFence + body) == body
  {
    assert (JsonFence + body)[..|JsonFence|] == JsonFence;
  }

  /** The "```" check sees the text after "```json" is gone, so both leading fences go. */
  lemma JsonThenBareFenceRemoved(body: string)
    ensures DropLeadingFence(DropJsonFence(JsonFence + Fence + body)) == body
  {
    assert JsonFence + Fence + body == JsonFence + (Fence + body);
    DropJsonFenceInverse(Fence + body);
    assert (Fence + body)[..3] == Fence;
  }

  /** Only one bare leading fence is removed. */
  lemma OneBareFenceRemoved(body: string)
    ensures DropLeadingFence(DropJsonFence(Fence + Fence + body)) == Fence + body
  {
    assert (Fence + Fence + body)[3] != JsonFence[3];
    assert (Fence + Fence + body)[..3] == Fence;
    assert (Fence + Fence + body)[3..] == Fence + body;
  }

  /** Only one "```json" is removed; a second one then loses its "```" to the next step. */
  lemma OneJsonFenceRemoved(body: string)
    ensures DropLeadingFence(DropJsonFence(JsonFence + JsonFence + body)) == "json" + body
  {
    assert JsonFence + JsonFence + body == JsonFence + (JsonFence + body);
    DropJsonFenceInverse(JsonFence + body);
    assert (JsonFence + body)[..3] == Fence;
    assert (JsonFence + body)[3..] == "json" + body;
  }

  /** Only one trailing fence is removed. */
  lemma OneTrailingFenceRemoved(body: string)
    ensures DropTrailingFence(body + Fence + Fence) == body + Fence
  {
    var t := body + Fence + Fence;
    assert t[|t| - 3..] == Fence;
    assert t[..|t| - 3] == body + Fence;
  }

  /** A lone fence is consumed by the leading step and leaves the empty string. */
  lemma LoneFenceBecomesEmpty()
    ensures StripFences(Fence) == ""
    ensures CleanJsonText(Fence) == ""
  {
    assert Fence[..3] == Fence;
  }

  /** Text with neither a leading nor a trailing fence passes the fence steps unchanged. */
  lemma UnfencedUnchanged(raw: string)
    requires !StartsWith(raw, Fence) && !EndsWith(raw, Fence)
    ensures StripFences(raw) == raw
  {
  }

  /** Whitespace at both ends hides fences from the fence steps. */
  lemma OuterSpaceShieldsFences(raw: string)
    requires |raw| > 0 && IsSpace(raw[0]) && IsSpace(raw[|raw| - 1])
    ensures StripFences(raw) == raw
    ensures CleanJsonText(raw) == Strip(raw)
  {
    UnfencedUnchanged(raw);
  }

  /** Leading whitespace hides both leading fences from their checks. */
  lemma LeadingSpaceShieldsLeadingFences(raw: string)
    requires |raw| > 0 && IsSpace(raw[0])
    ensures DropLeadingFence(DropJsonFence(raw)) == raw
  {
  }

  /** Trailing whitespace hides the trailing fence from its check. */
  lemma TrailingSpaceShieldsTrailingFence(text: string)
    requires |text| > 0 && IsSpace(text[|text| - 1])
    ensures DropTrailingFence(text) == text
  {
  }

  /** With only a leading space, the leading fences stay and the trailing one still goes. */
  lemma IndentedReplyLosesOnlyTrailingFence()
    ensures StripFences(" ```json[]```") == " ```json[]"
  {
    var raw := " ```json[]```";
    LeadingSpaceShieldsLeadingFences(raw);
    assert raw[|raw| - 3..] == Fence;
    assert raw[..|raw| - 3] == " ```json[]";
  }

  /** For instance, an indented fenced reply reaches the decoder with its fences. */
  lemma IndentedFenceSurvives()
    ensures CleanJsonText(" ```json[]``` ") == "```json[]```"
  {
    var raw := " ```json[]``` ";
    OuterSpaceShieldsFences(raw);
    var u := "```json[]``` ";
    var v := "```json[]```";
    assert raw[1..] == u;
    assert !IsSpace(u[0]);
    assert LeadingSpaces(u) == 0;
    assert LeadingSpaces(raw) == 1;
    assert u[..|u| - 1] == v;
    assert !IsSpace(v[|v| - 1]);
    assert TrailingStart(v) == |v|;
    assert TrailingStart(u) == |v|;
  }

  /** A body wrapped in "```json" ... "```" comes back as the stripped body. */
  lemma UnwrapJsonFence(body: string)
    requires !StartsWith(body + Fence, Fence)
    ensures CleanJsonText(JsonFence + body + Fence) == Strip(body)
  {
    assert JsonFence + body + Fence == JsonFence + (body + Fence);
    DropJsonFenceInverse(body + Fence);
    var t := body + Fence;
    assert t[|t| - 3..] == Fence;
    assert t[..|t| - 3] == body;
  }

  // ---------------------------------------------------------------------------
  // The whitespace strip

  /** Strip removes only whitespace, and all of it, from both ends. */
  lemma StripIsMaximalSlice(t: string)
    ensures exists i, j :: 0 <= i <= j <= |t| && Strip(t) == t[i..j]
                           && (forall k :: 0 <= k < i ==> IsSpace(t[k]))
                           && (forall k :: j <= k < |t| ==> IsSpace(t[k]))
    ensures |Strip(t)| > 0 ==> !IsSpace(Strip(t)[0]) && !IsSpace(Strip(t)[|Strip(t)| - 1])
  {
    var i := LeadingSpaces(t);
    var u := t[i..];
    var m := TrailingStart(u);
    assert Strip(t) == t[i..i + m];
    assert forall k :: i + m <= k < |t| ==> t[k] == u[k - i];
  }

  /** The decoder never sees leading or trailing whitespace. */
  lemma CleanedHasNoOuterSpace(raw: string)
    ensures var c := CleanJsonText(raw); |c| > 0 ==> !IsSpace(c[0]) && !IsSpace(c[|c| - 1])
  {
    StripIsMaximalSlice(StripFences(raw));
  }

  /** Stripping twice is stripping once. */
  lemma StripIdempotent(t: string)
    ensures Strip(Strip(t)) == Strip(t)
  {
    var s := Strip(t);
    StripIsMaximalSlice(t);
    if |s| > 0 {
      assert LeadingSpaces(s) == 0;
      assert TrailingStart(s) == |s|;
    }
    assert s[0..] == s && s[..|s|] == s;
  }

  /** Clean JSON text without fences or outer whitespace reaches the decoder as it is. */
  lemma CleanTextUnchanged(t: string)
    requires !StartsWith(t, Fence) && !EndsWith(t, Fence)
    requires |t| > 0 ==> !IsSpace(t[0]) && !IsSpace(t[|t| - 1])
    ensures CleanJsonText(t) == t
  {
    UnfencedUnchanged(t);
    if |t| > 0 {
      assert LeadingSpaces(t) == 0;
      assert TrailingStart(t) == |t|;
    }
    assert t[0..] == t && t[..|t|] == t;
  }

  // ---------------------------------------------------------------------------
  // The error path

  /** An error from the text source is returned as it is, whatever the decoder would have done. */
  lemma SourceErrorPassesThrough<D>(error: string, decode1: string -> Result<D, string>,
                                   decode2: string -> Result<D, string>)
    ensures GenerateQuizContent(Failed(error), decode1) == Err(error)
    ensures GenerateQuizContent(Failed(error), decode1) == GenerateQuizContent(Failed(error), decode2)
  {
  }
}
