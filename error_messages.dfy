/**
 * `extract_error_message`: a human-readable error text from the raw
 * `serviceExceptionJson` payload. `json.loads` is an oracle.
 */
module ErrorMessages {
  import opened Wrappers
  import opened Ascii

  /** `json.loads` followed by reading the object's string members: None where
      it raises JSONDecodeError. */
  type JsonReader = string -> Option<map<string, string>>

  const DescriptionKey: string := "errorDescription"

  /** `obj.get('errorDescription', raw)`, with the raw text standing in when
      it is not JSON or the key is absent. */
  function Description(raw: string, decode: JsonReader): (d: string)
    ensures decode(raw).Some? && DescriptionKey in decode(raw).value ==> d == decode(raw).value[DescriptionKey]
    ensures decode(raw).None? || DescriptionKey !in decode(raw).value ==> d == raw
  {
    match decode(raw)
    case Some(obj) => if DescriptionKey in obj then obj[DescriptionKey] else raw
    case None => raw
  }

  /** The useful part of a description: after the first `;` if there is one,
      stripped either way. */
  function UsefulPart(desc: string): (r: string)
    ensures ';' in desc ==> r == Strip(desc[FirstIndex(desc, ';').value + 1..])
    ensures ';' !in desc ==> r == Strip(desc)
    ensures r == [] || (!IsSpace(r[0]) && !IsSpace(r[|r| - 1]))
  {
    if ';' in desc then
      var i := FirstIndex(desc, ';').value;
      assert AfterFirst(desc, ';') == desc[i + 1..];
      Strip(AfterFirst(desc, ';'))
    else Strip(desc)
  }

  function ExtractErrorMessage(raw: string, decode: JsonReader): (r: string)
    ensures raw == "" ==> r == ""
    ensures raw != "" ==> r == UsefulPart(Description(raw, decode))
    ensures r == [] || (!IsSpace(r[0]) && !IsSpace(r[|r| - 1]))
  {
    if raw == "" then "" else UsefulPart(Description(raw, decode))
  }

  /** A description with a `;` keeps what follows the FIRST `;`, without its
      surrounding whitespace; later `;` stay in the message. */
  lemma KeepsTextAfterFirstSemicolon(code: string, lead: string, text: string, trail: string)
    requires ';' !in code
    requires AllSpace(lead) && AllSpace(trail)
    requires text != [] && !IsSpace(text[0]) && !IsSpace(text[|text| - 1])
    ensures UsefulPart(code + [';'] + lead + text + trail) == text
  {
    var desc := code + [';'] + lead + text + trail;
    assert desc == code + [';'] + (lead + text + trail);
    FirstIndexAfter(code, ';', lead + text + trail);
    StripPadded(lead, text, trail);
  }

  /** A description without `;` is kept whole, without its surrounding
      whitespace. */
  lemma KeepsWholeTextWithoutSemicolon(lead: string, text: string, trail: string)
    requires ';' !in lead + text + trail
    requires AllSpace(lead) && AllSpace(trail)
    requires text != [] && !IsSpace(text[0]) && !IsSpace(text[|text| - 1])
    ensures UsefulPart(lead + text + trail) == text
  {
    StripPadded(lead, text, trail);
  }

  /** The message is always a piece of the description it came from. */
  lemma MessageInDescription(raw: string, decode: JsonReader)
    ensures Contains(Description(raw, decode), ExtractErrorMessage(raw, decode))
  {
    var d := Description(raw, decode);
    if ';' in d {
      var tail := AfterFirst(d, ';');
      StripContained(tail);
      var i := FirstIndex(d, ';').value;
      assert d == (d[..i] + [';']) + tail;
      ContainsAfterPrefix(d[..i] + [';'], tail, Strip(tail));
    } else {
      StripContained(d);
    }
  }

  /** The JSON branch: a decoded object's description is used in place of the
      raw payload, and loses its machine prefix. */
  lemma JsonDescriptionUsed(raw: string, decode: JsonReader, code: string, text: string)
    requires raw != ""
    requires ';' !in code
    requires text != [] && !IsSpace(text[0]) && !IsSpace(text[|text| - 1])
    requires decode(raw) == Some(map[DescriptionKey := code + "; " + text])
    ensures ExtractErrorMessage(raw, decode) == text
  {
    var desc := code + "; " + text;
    assert desc == code + [';'] + " " + text + "" by {
      assert "; " == [';'] + " ";
    }
    KeepsTextAfterFirstSemicolon(code, " ", text, "");
    assert UsefulPart(desc) == text;
  }

  /** Worked example: a JSON payload whose description has a machine prefix. */
  lemma JsonExample(json: string, decode: JsonReader)
    requires json != ""
    requires decode(json) == Some(map[DescriptionKey := "Code123; Real failure text"])
    ensures ExtractErrorMessage(json, decode) == "Real failure text"
  {
    assert "Code123; Real failure text" == "Code123" + "; " + "Real failure text";
    JsonDescriptionUsed(json, decode, "Code123", "Real failure text");
  }

  /** Worked example: non-JSON text with a `;` keeps what follows it. */
  lemma NotJsonExample(decode: JsonReader)
    requires decode("not json; trailing").None?
    ensures ExtractErrorMessage("not json; trailing", decode) == "trailing"
  {
    assert "not json; trailing" == "not json" + [';'] + " " + "trailing" + "";
    KeepsTextAfterFirstSemicolon("not json", " ", "trailing", "");
  }

  /** Worked example: non-JSON text without a `;` is kept whole. */
  lemma PlainTextExample(decode: JsonReader)
    requires decode("plain text, no semicolon").None?
    ensures ExtractErrorMessage("plain text, no semicolon", decode) == "plain text, no semicolon"
  {
    var plain := "plain text, no semicolon";
    assert plain == "" + plain + "";
    KeepsWholeTextWithoutSemicolon("", plain, "");
  }
}
