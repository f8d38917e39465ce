/** The parts of Go's net/url and strings that signed links and playlists rely on; percent-encoding as in
    section 2.1 of RFC 3986. */
module Urls {
  import opened Text
  import opened Wrappers

  // ---- splitting and joining ----

  /** strings.Split(s, c). */
  function Split(s: string, c: char): (parts: seq<string>)
    ensures parts != []
    ensures forall k :: 0 <= k < |parts| ==> c !in parts[k]
    decreases |s|
  {
    var i := IndexOf(s, c);
    if i < |s| then [s[..i]] + Split(s[i + 1..], c) else [s]
  }

  /** strings.Join(parts, c). */
  function Join(parts: seq<string>, c: char): string {
    if parts == [] then "" else if |parts| == 1 then parts[0] else parts[0] + [c] + Join(parts[1..], c)
  }

  lemma SplitFirst(a: string, c: char, rest: string)
    requires c !in a
    ensures Split(a + [c] + rest, c) == [a] + Split(rest, c)
  {
    CutJoined(a, c, rest);
  }

  lemma SplitNone(s: string, c: char)
    requires c !in s
    ensures Split(s, c) == [s]
  {
  }

  /** Splitting undoes joining when no part holds the separator. */
  lemma {:induction false} SplitJoined(parts: seq<string>, c: char)
    requires parts != [] && forall k :: 0 <= k < |parts| ==> c !in parts[k]
    ensures Split(Join(parts, c), c) == parts
  {
    if |parts| == 1 {
      SplitNone(parts[0], c);
    } else {
      SplitFirst(parts[0], c, Join(parts[1..], c));
      SplitJoined(parts[1..], c);
    }
  }

  lemma Associative<T>(a: seq<T>, b: seq<T>, c: seq<T>)
    ensures a + b + c == a + (b + c)
  {
  }

  lemma SplitConcatStep(head: string, c: char, tail: string, b: string, a: string, rest: string)
    requires c !in head && Split(rest, c) == Split(tail, c) + Split(b, c)
    requires a == head + [c] + tail && rest == tail + ([c] + b)
    ensures Split(a + ([c] + b), c) == Split(a, c) + Split(b, c)
  {
    SplitFirst(head, c, tail);
    SplitFirst(head, c, rest);
    Associative(head + [c], tail, [c] + b);
    Associative([head], Split(tail, c), Split(b, c));
  }

  lemma {:induction false} SplitConcat(a: string, c: char, b: string)
    ensures Split(a + ([c] + b), c) == Split(a, c) + Split(b, c)
    decreases |a|
  {
    var i := IndexOf(a, c);
    if i < |a| {
      SplitConcat(a[i + 1..], c, b);
      assert a == a[..i] + [c] + a[i + 1..];
      SplitConcatStep(a[..i], c, a[i + 1..], b, a, a[i + 1..] + ([c] + b));
    } else {
      SplitNone(a, c);
      SplitFirst(a, c, b);
      Associative(a, [c], b);
    }
  }

  // ---- percent-encoding ----

  predicate Unreserved(c: char) {
    var n := c as int;
    65 <= n <= 90 || 97 <= n <= 122 || 48 <= n <= 57 || c == '-' || c == '_' || c == '.' || c == '~'
  }

  function HexChar(v: nat): (c: char)
    requires v < 16
    ensures HexValue(c) == v
  {
    if v < 10 then (48 + v) as char else (55 + v) as char
  }

  /** 16 for a character that is no hexadecimal digit. */
  function HexValue(c: char): (v: nat)
    ensures v <= 16
  {
    var n := c as int;
    if 48 <= n <= 57 then n - 48
    else if 65 <= n <= 70 then n - 55
    else if 97 <= n <= 102 then n - 87
    else 16
  }

  function EscapedChar(c: char): string {
    if Unreserved(c) then [c]
    else if c == ' ' then "+"
    else ['%', HexChar(c as int / 16 % 16), HexChar(c as int % 16)]
  }

  /** url.QueryEscape. */
  function Escape(s: string): string {
    if s == "" then "" else EscapedChar(s[0]) + Escape(s[1..])
  }

  lemma EscapedVectors()
    ensures Escape(" ") == "+" && Escape("/") == "%2F" && Escape("+") == "%2B" && Escape("=") == "%3D"
    ensures Escape("a") == "a" && Escape("-") == "-" && Escape("~") == "~" && Escape([255 as char]) == "%FF"
  {
    assert Escape("") == "";
    assert forall c: char :: [c][1..] == "";
  }

  function Prefixed(c: char, rest: Option<string>): Option<string> {
    if rest.Some? then Some([c] + rest.value) else None
  }

  /** url.QueryUnescape; None for a percent sign without two hexadecimal digits. */
  function Unescape(s: string): Option<string> {
    if s == "" then Some("")
    else if s[0] == '%' then
      if |s| >= 3 && HexValue(s[1]) < 16 && HexValue(s[2]) < 16
      then Prefixed((HexValue(s[1]) * 16 + HexValue(s[2])) as char, Unescape(s[3..]))
      else None
    else Prefixed(if s[0] == '+' then ' ' else s[0], Unescape(s[1..]))
  }

  lemma UnescapeFirst(c: char, rest: string)
    requires c as int < 256
    ensures Unescape(EscapedChar(c) + rest) == Prefixed(c, Unescape(rest))
  {
    var e := EscapedChar(c);
    assert (e + rest)[|e|..] == rest;
  }

  /** Unescaping undoes escaping on every byte string. */
  lemma {:induction false} EscapeRoundTrip(s: string)
    requires IsBytes(s)
    ensures Unescape(Escape(s)) == Some(s)
  {
    if s != "" {
      EscapeRoundTrip(s[1..]);
      UnescapeFirst(s[0], Escape(s[1..]));
      assert s == [s[0]] + s[1..];
    }
  }

  /** Escaped text consists of unreserved characters, plus and percent signs. */
  lemma {:induction false} EscapedAlphabet(s: string)
    ensures forall k :: 0 <= k < |Escape(s)| ==> Unreserved(Escape(s)[k]) || Escape(s)[k] == '+' || Escape(s)[k] == '%'
  {
    if s != "" {
      EscapedAlphabet(s[1..]);
      HexIsUnreserved(s[0] as int / 16 % 16);
      HexIsUnreserved(s[0] as int % 16);
    }
  }

  lemma HexIsUnreserved(v: nat)
    requires v < 16
    ensures Unreserved(HexChar(v))
  {
  }

  /** Unescaping never lengthens a text and gives it back unchanged exactly if it has no percent or plus sign. */
  lemma {:induction false} UnescapeShrinks(s: string)
    ensures Unescape(s).Some? ==> |Unescape(s).value| <= |s|
    ensures Unescape(s) == Some(s) <==> '%' !in s && '+' !in s
  {
    if s != "" {
      UnescapeShrinks(s[1..]);
      if s[0] == '%' {
        if |s| >= 3 {
          UnescapeShrinks(s[3..]);
        }
      } else {
        assert s == [s[0]] + s[1..];
        assert '%' in s <==> '%' in s[1..];
        assert '+' in s <==> s[0] == '+' || '+' in s[1..];
      }
    }
  }

  // ---- queries ----

  /** The query of a URL: what follows the first question mark, up to a fragment. */
  function QueryOf(link: string): string {
    var plain := link[..IndexOf(link, '#')];
    var q := IndexOf(plain, '?');
    if q < |plain| then plain[q + 1..] else ""
  }

  /** One segment of a query; None for an empty one, one with a semicolon and one that cannot be unescaped. */
  function Pair(segment: string): Option<(string, string)> {
    if segment == "" || ';' in segment then None
    else
      var i := IndexOf(segment, '=');
      var key, value := Unescape(segment[..i]), Unescape(if i < |segment| then segment[i + 1..] else "");
      if key.Some? && value.Some? then Some((key.value, value.value)) else None
  }

  /** The first value of a parameter. */
  function Find(segments: seq<string>, name: string): Option<string> {
    if segments == [] then None
    else
      var p := Pair(segments[0]);
      if p.Some? && p.value.0 == name then Some(p.value.1) else Find(segments[1..], name)
  }

  /** url.Values.Get. */
  function Get(segments: seq<string>, name: string): string {
    var v := Find(segments, name);
    if v.Some? then v.value else ""
  }

  /** A parameter name that needs no escaping. */
  predicate IsName(name: string) {
    name != "" && forall k :: 0 <= k < |name| ==> Unreserved(name[k])
  }

  /** A text that reading a query leaves as it is. */
  predicate Intact(s: string) {
    '%' !in s && '+' !in s && '&' !in s && ';' !in s && '#' !in s
  }

  /** Neither blanks nor control characters: net/url refuses a URL with one of the latter, and a request
      line cannot carry a URL with one of the former. */
  predicate Visible(s: string) {
    forall k :: 0 <= k < |s| ==> s[k] as int > 32 && s[k] as int != 127
  }

  /** A text that a query carries as it is, from one end of the request to the other. */
  predicate Transparent(s: string) {
    Intact(s) && Visible(s)
  }

  function Segment(name: string, text: string): string {
    name + "=" + text
  }

  lemma PairOfSegment(name: string, text: string)
    requires IsName(name)
    ensures Pair(Segment(name, text)) ==
      if ';' in text || Unescape(text).None? then None else Some((name, Unescape(text).value))
  {
    var s := Segment(name, text);
    assert s == name + ['='] + text;
    assert '=' !in name && ';' !in name && '%' !in name && '+' !in name;
    CutJoined(name, '=', text);
    UnescapeShrinks(name);
    assert s != "";
    assert ';' in s <==> ';' in text;
  }

  lemma {:induction false} FindConcat(a: seq<string>, b: seq<string>, name: string)
    ensures Find(a + b, name) == if Find(a, name).Some? then Find(a, name) else Find(b, name)
  {
    if a == [] {
      assert a + b == b;
    } else {
      assert (a + b)[1..] == a[1..] + b;
      FindConcat(a[1..], b, name);
    }
  }

  lemma PairShrinks(segment: string)
    ensures Pair(segment).Some? ==> |Pair(segment).value.1| <= |segment|
  {
    var i := IndexOf(segment, '=');
    UnescapeShrinks(if i < |segment| then segment[i + 1..] else "");
  }

  /** A value found in a text is no longer than the text. */
  lemma {:induction false} FindShrinks(s: string, name: string)
    ensures Find(Split(s, '&'), name).Some? ==> |Find(Split(s, '&'), name).value| <= |s|
    decreases |s|
  {
    var i := IndexOf(s, '&');
    PairShrinks(s[..i]);
    if i < |s| {
      FindShrinks(s[i + 1..], name);
      assert Split(s, '&')[1..] == Split(s[i + 1..], '&');
    } else {
      assert s[..i] == s && Split(s, '&')[1..] == [];
    }
  }
}
