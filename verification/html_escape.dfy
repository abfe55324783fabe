/** Python's `html.escape(s)` with its default `quote=True`, and the
    matching decoder for the five entities it produces. */
module HtmlEscape {

  import opened Text

  /** The replacement for one character. */
  function EscapeChar(c: char): string {
    if c == '&' then "&amp;"
    else if c == '<' then "&lt;"
    else if c == '>' then "&gt;"
    else if c == '"' then "&quot;"
    else if c == '\'' then "&#x27;"
    else [c]
  }

  /** Characters that must not survive escaping. */
  predicate IsMarkup(c: char) {
    c == '<' || c == '>' || c == '"' || c == '\''
  }

  /** `s` begins with one of the entities `html.escape` emits. */
  predicate StartsWithEntity(s: string) {
    StartsWith(s, "&amp;") || StartsWith(s, "&lt;") || StartsWith(s, "&gt;")
    || StartsWith(s, "&quot;") || StartsWith(s, "&#x27;")
  }

  /** No raw markup character survives. */
  predicate NoMarkup(r: string) {
    forall i :: 0 <= i < |r| ==> !IsMarkup(r[i])
  }

  /** Every `&` opens one of the five entities. */
  predicate AmpersandsOpenEntities(r: string) {
    forall i :: 0 <= i < |r| && r[i] == '&' ==> StartsWithEntity(r[i..])
  }

  /** `html.escape(s)`: every `& < > " '` is replaced by its entity, every
      other character is kept. The result holds no raw markup character,
      and text without special characters comes back unchanged. */
  function Escape(s: string): (r: string)
    ensures NoMarkup(r)
    ensures |r| >= |s|
    ensures (forall i :: 0 <= i < |s| ==> !IsMarkup(s[i]) && s[i] != '&') ==> r == s
    decreases |s|
  {
    if |s| == 0 then ""
    else
      var e := EscapeChar(s[0]);
      var rest := Escape(s[1..]);
      assert forall i :: 0 <= i < |e| ==> (e + rest)[i] == e[i];
      assert forall i :: |e| <= i < |e| + |rest| ==> (e + rest)[i] == rest[i - |e|];
      e + rest
  }

  /** Every `&` in escaped text opens an entity, so the text can be decoded
      unambiguously. */
  lemma {:induction false} EscapeOpensEntities(s: string)
    ensures AmpersandsOpenEntities(Escape(s))
    decreases |s|
  {
    if |s| > 0 {
      EscapeOpensEntities(s[1..]);
      EntitiesPrepend(s[0], Escape(s[1..]));
    }
  }

  lemma EntitiesPrepend(c: char, rest: string)
    requires AmpersandsOpenEntities(rest)
    ensures AmpersandsOpenEntities(EscapeChar(c) + rest)
  {
    var e := EscapeChar(c);
    var r := e + rest;
    forall i | 0 <= i < |r| && r[i] == '&'
      ensures StartsWithEntity(r[i..])
    {
      if i < |e| {
        assert r[i] == e[i];
        assert i == 0;
        assert r[..|e|] == e;
      } else {
        assert r[i] == rest[i - |e|];
        assert r[i..] == rest[i - |e|..];
      }
    }
  }

  /** Decodes the five entities `html.escape` emits and keeps everything
      else. */
  function Unescape(s: string): string
    decreases |s|
  {
    if |s| == 0 then ""
    else if StartsWith(s, "&amp;") then "&" + Unescape(s[5..])
    else if StartsWith(s, "&lt;") then "<" + Unescape(s[4..])
    else if StartsWith(s, "&gt;") then ">" + Unescape(s[4..])
    else if StartsWith(s, "&quot;") then "\"" + Unescape(s[6..])
    else if StartsWith(s, "&#x27;") then "'" + Unescape(s[6..])
    else [s[0]] + Unescape(s[1..])
  }

  lemma UnescapeStep(c: char, rest: string)
    ensures Unescape(EscapeChar(c) + rest) == [c] + Unescape(rest)
  {
    var s := EscapeChar(c) + rest;
    var n := |EscapeChar(c)|;
    assert s[n..] == rest;
    if c == '&' {
      assert s[..5] == "&amp;";
    } else if c == '<' {
      assert s[1] == 'l';
      assert !StartsWith(s, "&amp;") && StartsWith(s, "&lt;");
    } else if c == '>' {
      assert s[1] == 'g';
      assert !StartsWith(s, "&amp;") && !StartsWith(s, "&lt;") && StartsWith(s, "&gt;");
    } else if c == '"' {
      assert s[1] == 'q';
      assert !StartsWith(s, "&amp;") && !StartsWith(s, "&lt;") && !StartsWith(s, "&gt;");
      assert StartsWith(s, "&quot;");
    } else if c == '\'' {
      assert s[1] == '#';
      assert !StartsWith(s, "&amp;") && !StartsWith(s, "&lt;") && !StartsWith(s, "&gt;");
      assert !StartsWith(s, "&quot;") && StartsWith(s, "&#x27;");
    } else {
      assert s[0] == c;
      assert !StartsWith(s, "&amp;") && !StartsWith(s, "&lt;") && !StartsWith(s, "&gt;");
      assert !StartsWith(s, "&quot;") && !StartsWith(s, "&#x27;");
    }
  }

  /** Decoding the escaped text gives the original back, so escaping loses
      nothing and distinct titles stay distinct. */
  lemma {:induction false} UnescapeEscape(s: string)
    ensures Unescape(Escape(s)) == s
    decreases |s|
  {
    if |s| > 0 {
      UnescapeStep(s[0], Escape(s[1..]));
      UnescapeEscape(s[1..]);
      assert s == [s[0]] + s[1..];
    }
  }

  /** Escaping is injective. */
  lemma EscapeInjective(a: string, b: string)
    requires Escape(a) == Escape(b)
    ensures a == b
  {
    UnescapeEscape(a);
    UnescapeEscape(b);
  }
}
