/**
 * The text that goes into the tour document's attributes: PHP's
 * htmlspecialchars($s, ENT_QUOTES) and the two spellings of a thumbnail's
 * text label (the controller upper-cases it, the pipeline service
 * capitalises only its first letter).
 */
module Markup {
  import opened Text

  /** The characters htmlspecialchars(..., ENT_QUOTES) rewrites. */
  predicate IsSpecial(c: char) { c == '&' || c == '"' || c == '\'' || c == '<' || c == '>' }

  /** Text that can sit inside a double- or single-quoted attribute without closing it or opening a tag. */
  predicate AttributeSafe(s: string)
  {
    forall i :: 0 <= i < |s| ==> s[i] != '"' && s[i] != '\'' && s[i] != '<' && s[i] != '>'
  }

  function EscapeChar(c: char): string
  {
    if c == '&' then "&amp;"
    else if c == '"' then "&quot;"
    else if c == '\'' then "&#039;"
    else if c == '<' then "&lt;"
    else if c == '>' then "&gt;"
    else [c]
  }

  /** htmlspecialchars($s, ENT_QUOTES) with its default double encoding. */
  function HtmlSpecialChars(s: string): (r: string)
    ensures AttributeSafe(r)
    ensures |r| >= |s|
    ensures (forall i :: 0 <= i < |s| ==> !IsSpecial(s[i])) ==> r == s
  {
    if s == [] then [] else EscapeChar(s[0]) + HtmlSpecialChars(s[1..])
  }


  /** The entity of the escaping at the start of `s`, if any: the character it stands for and its length. */
  function EntityAt(s: string): Option<(char, nat)>
  {
    if StartsWith(s, "&amp;") then Some(('&', 5))
    else if StartsWith(s, "&quot;") then Some(('"', 6))
    else if StartsWith(s, "&#039;") then Some(('\'', 6))
    else if StartsWith(s, "&lt;") then Some(('<', 4))
    else if StartsWith(s, "&gt;") then Some(('>', 4))
    else None
  }

  /**
   * The inverse of HtmlSpecialChars: it decodes exactly the five entities the
   * escaping writes, and leaves every other '&' as it is.
   */
  function Unescape(s: string): string
    decreases |s|
  {
    if s == [] then []
    else match EntityAt(s)
      case Some(e) => [e.0] + Unescape(if e.1 <= |s| then s[e.1..] else [])
      case None => [s[0]] + Unescape(s[1..])
  }

  lemma EntityOfEscapedChar(c: char, rest: string)
    ensures EntityAt(EscapeChar(c) + rest) == if IsSpecial(c) then Some((c, |EscapeChar(c)|)) else None
  {
    var e := EscapeChar(c) + rest;
    if c == '&' {
      assert StartsWith(e, "&amp;");
    } else if c == '"' {
      assert e[1] == 'q' && !StartsWith(e, "&amp;");
      assert StartsWith(e, "&quot;");
    } else if c == '\'' {
      assert e[1] == '#' && !StartsWith(e, "&amp;") && !StartsWith(e, "&quot;");
      assert StartsWith(e, "&#039;");
    } else if c == '<' {
      assert e[1] == 'l' && !StartsWith(e, "&amp;") && !StartsWith(e, "&quot;") && !StartsWith(e, "&#039;");
      assert StartsWith(e, "&lt;");
    } else if c == '>' {
      assert e[1] == 'g' && !StartsWith(e, "&amp;") && !StartsWith(e, "&quot;") && !StartsWith(e, "&#039;");
      assert !StartsWith(e, "&lt;") && StartsWith(e, "&gt;");
    } else {
      assert e[0] == c;
    }
  }

  lemma UnescapeAfterEscapedChar(c: char, rest: string)
    ensures Unescape(EscapeChar(c) + rest) == [c] + Unescape(rest)
  {
    var e := EscapeChar(c) + rest;
    EntityOfEscapedChar(c, rest);
    assert e[|EscapeChar(c)|..] == rest;
  }

  /** Escaping loses nothing: decoding gives back the original title, location or link. */
  lemma {:induction false} EscapeRoundTrip(s: string)
    ensures Unescape(HtmlSpecialChars(s)) == s
  {
    if s != [] {
      EscapeRoundTrip(s[1..]);
      UnescapeAfterEscapedChar(s[0], HtmlSpecialChars(s[1..]));
      assert [s[0]] + s[1..] == s;
    }
  }

  // ---------------------------------------------------------------------------
  // Thumbnail labels
  // ---------------------------------------------------------------------------

  /** The controller's label: underscores turned into spaces, then upper-cased. */
  function ControllerLabel(title: string): string
  {
    ToUpper(ReplaceChar(title, '_', ' '))
  }

  /** The pipeline service's label: underscores turned into spaces, lower-cased, then the first letter upper-cased. */
  function ServiceLabel(title: string): string
  {
    var low := ToLower(ReplaceChar(title, '_', ' '));
    if low == [] then [] else [Upper(low[0])] + low[1..]
  }

  /**
   * The two labels spell the same words: both drop the underscores and agree
   * up to ASCII case; the controller's has no lower-case letter, the service's
   * no upper-case letter after the first.
   */
  lemma LabelsAgreeUpToCase(title: string)
    ensures |ControllerLabel(title)| == |ServiceLabel(title)| == |title|
    ensures ToLower(ControllerLabel(title)) == ToLower(ServiceLabel(title))
    ensures forall i :: 0 <= i < |title| ==> ControllerLabel(title)[i] != '_' && ServiceLabel(title)[i] != '_'
    ensures forall i :: 0 <= i < |title| ==> !IsAsciiLower(ControllerLabel(title)[i])
    ensures forall i :: 1 <= i < |title| ==> !IsAsciiUpper(ServiceLabel(title)[i])
  {
    var low := ToLower(ReplaceChar(title, '_', ' '));
    var svc := ServiceLabel(title);
    var ctl := ControllerLabel(title);
    forall i | 0 <= i < |title| ensures Lower(ctl[i]) == Lower(svc[i]) {
      if i == 0 {
        assert svc[0] == Upper(low[0]);
      } else {
        assert svc[i] == low[i];
      }
    }
  }

  /**
   * The labels differ as soon as the second character is a letter: the
   * controller's has it upper-case, the service's lower-case.
   */
  lemma LabelsDiffer(title: string)
    requires |title| >= 2 && (IsAsciiUpper(title[1]) || IsAsciiLower(title[1]))
    ensures ControllerLabel(title)[1] == Upper(title[1]) && IsAsciiUpper(ControllerLabel(title)[1])
    ensures ServiceLabel(title)[1] == Lower(title[1]) && IsAsciiLower(ServiceLabel(title)[1])
    ensures ControllerLabel(title) != ServiceLabel(title)
  {
    var low := ToLower(ReplaceChar(title, '_', ' '));
    assert ReplaceChar(title, '_', ' ')[1] == title[1];
    assert ServiceLabel(title)[1] == low[1];
  }

}
