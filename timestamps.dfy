/**
 * `parse_iso` and `fmt_local`. Instants are whole seconds since the epoch;
 * `datetime.fromisoformat` and the time-zone rendering are oracles passed in.
 */
module Timestamps {
  import opened Wrappers

  /** `datetime.fromisoformat`: the instant a text denotes, or None where it raises. */
  type IsoReader = string -> Option<int>

  /** `dt.astimezone(tz).strftime('%d-%m-%Y %H:%M:%S')` for the configured zone. */
  type LocalRenderer = int -> string

  /** What `parse_iso` does with a text: no instant (`None`), an instant, or
      the ValueError `fromisoformat` raises, carrying the text it was given. */
  datatype Parsed = NoInstant | Instant(seconds: int) | Malformed(text: string)

  const UtcOffset: string := "+00:00"

  predicate EndsWithZ(s: string) {
    |s| > 0 && s[|s| - 1] == 'Z'
  }

  /** The text handed to `fromisoformat`: a trailing `Z` (the UTC designator of
      section 5.6 of RFC 3339) becomes `+00:00`. */
  function Rewrite(s: string): (r: string)
    ensures EndsWithZ(s) ==> |r| == |s| + 5 && r[..|s| - 1] == s[..|s| - 1] && r[|s| - 1..] == UtcOffset
    ensures !EndsWithZ(s) ==> r == s
    ensures !EndsWithZ(r)
  {
    if EndsWithZ(s) then s[..|s| - 1] + UtcOffset else s
  }

  /** `parse_iso`: the empty text is no instant; any other text is read after
      the `Z` rewrite, and one the reader rejects is Malformed. */
  function ParseIso(s: string, read: IsoReader): (p: Parsed)
    ensures p.NoInstant? <==> s == ""
    ensures s != "" && read(Rewrite(s)).Some? ==> p == Instant(read(Rewrite(s)).value)
    ensures s != "" && read(Rewrite(s)).None? ==> p == Malformed(Rewrite(s))
  {
    if s == "" then NoInstant
    else
      var t := Rewrite(s);
      match read(t)
      case Some(seconds) => Instant(seconds)
      case None => Malformed(t)
  }

  /** `fmt_local` on an already parsed value: no instant renders as `''`. */
  function Render(p: Parsed, render: LocalRenderer): (r: Option<string>)
    ensures r.None? <==> p.Malformed?
    ensures p.NoInstant? ==> r == Some("")
    ensures p.Instant? ==> r == Some(render(p.seconds))
  {
    match p
    case NoInstant => Some("")
    case Instant(t) => Some(render(t))
    case Malformed(_) => None
  }

  /** `fmt_local(iso, tz)`: None where it raises. */
  function FmtLocal(iso: string, read: IsoReader, render: LocalRenderer): (r: Option<string>)
    ensures iso == "" ==> r == Some("")
    ensures r.None? <==> ParseIso(iso, read).Malformed?
  {
    Render(ParseIso(iso, read), render)
  }

  /** With the `Z` rewrite, an instant written with `Z` reads like the same
      instant written with `+00:00`. */
  lemma ZuluEqualsUtcOffset(stem: string, read: IsoReader)
    ensures ParseIso(stem + "Z", read) == ParseIso(stem + UtcOffset, read)
  {
    var z := stem + "Z";
    assert EndsWithZ(z) && z[..|z| - 1] == stem;
    assert Rewrite(z) == stem + UtcOffset;
    assert !EndsWithZ(stem + UtcOffset);
  }
}
