/** `getCookie(name)`: the scan of `document.cookie` for the first `name=` pair. The JSON
    decoding of the value is not part of this module; the raw value text is returned. */
module Cookies {
  import opened Wrappers

  /** `s.split(';')`: the pieces between separators, always at least one. */
  function Split(s: string): (parts: seq<string>)
    ensures |parts| > 0
    ensures forall i :: 0 <= i < |parts| ==> ';' !in parts[i]
    decreases |s|
  {
    if |s| == 0 then [""]
    else
      var rest := Split(s[1..]);
      if s[0] == ';' then [""] + rest else [[s[0]] + rest[0]] + rest[1..]
  }

  /** `parts.join(';')`, the inverse of `Split`. */
  function Join(parts: seq<string>): string
    requires |parts| > 0
    decreases |parts|
  {
    if |parts| == 1 then parts[0] else parts[0] + ";" + Join(parts[1..])
  }

  lemma {:induction false} JoinSplit(s: string)
    ensures Join(Split(s)) == s
    decreases |s|
  {
    if |s| > 0 {
      JoinSplit(s[1..]);
      var rest := Split(s[1..]);
      if s[0] == ';' {
        assert ([""] + rest)[1..] == rest;
      } else if |rest| == 1 {
        assert Split(s) == [[s[0]] + rest[0]];
      } else {
        var parts := Split(s);
        assert parts[1..] == rest[1..];
        assert Join(rest) == rest[0] + ";" + Join(rest[1..]);
      }
    }
  }

  lemma {:induction false} SplitPrefix(a: string, rest: string)
    requires ';' !in a
    ensures Split(a + rest) == [a + Split(rest)[0]] + Split(rest)[1..]
    decreases |a|
  {
    if |a| > 0 {
      assert (a + rest)[1..] == a[1..] + rest;
      SplitPrefix(a[1..], rest);
      var r := Split(a[1..] + rest);
      assert Split(a + rest) == [[a[0]] + r[0]] + r[1..];
      assert [a[0]] + (a[1..] + Split(rest)[0]) == a + Split(rest)[0];
    } else {
      assert a + rest == rest;
      assert a + Split(rest)[0] == Split(rest)[0];
      assert Split(rest) == [Split(rest)[0]] + Split(rest)[1..];
    }
  }

  lemma {:induction false} SplitJoin(parts: seq<string>)
    requires |parts| > 0
    requires forall i :: 0 <= i < |parts| ==> ';' !in parts[i]
    ensures Split(Join(parts)) == parts
    decreases |parts|
  {
    if |parts| == 1 {
      SplitPrefix(parts[0], "");
      assert parts[0] + "" == parts[0];
    } else {
      var tail := Join(parts[1..]);
      SplitJoin(parts[1..]);
      assert Join(parts) == parts[0] + (";" + tail);
      SplitPrefix(parts[0], ";" + tail);
      assert (";" + tail)[1..] == tail;
      assert Split(";" + tail) == [""] + Split(tail);
      assert parts[0] + "" == parts[0];
      assert parts == [parts[0]] + parts[1..];
    }
  }

  /** `while (c.charAt(0) === ' ') c = c.substring(1)`: only the space character is dropped. */
  function StripLeadingSpaces(c: string): (t: string)
    ensures |t| <= |c| && t == c[|c| - |t|..]
    ensures |t| == 0 || t[0] != ' '
    ensures forall k :: 0 <= k < |c| - |t| ==> c[k] == ' '
    decreases |c|
  {
    if |c| > 0 && c[0] == ' ' then StripLeadingSpaces(c[1..]) else c
  }

  predicate StartsWith(c: string, prefix: string) {
    |prefix| <= |c| && c[..|prefix|] == prefix
  }

  predicate Matches(segment: string, nameEQ: string) {
    StartsWith(StripLeadingSpaces(segment), nameEQ)
  }

  /** The position of the first segment that starts with `nameEQ` once its leading spaces are
      gone, or -1 when there is none. */
  function MatchIndex(segments: seq<string>, nameEQ: string): (k: int)
    ensures -1 <= k < |segments|
    ensures k >= 0 ==> Matches(segments[k], nameEQ)
    ensures forall j :: 0 <= j < |segments| && (k < 0 || j < k) ==> !Matches(segments[j], nameEQ)
    decreases |segments|
  {
    if |segments| == 0 then -1
    else if Matches(segments[0], nameEQ) then 0
    else
      var k := MatchIndex(segments[1..], nameEQ);
      if k < 0 then -1 else k + 1
  }

  /** What `getCookie(name)` reads before the JSON decoding: the rest of the first matching segment. */
  function CookieValue(jar: string, name: string): Option<string> {
    var segments := Split(jar);
    var k := MatchIndex(segments, name + "=");
    if k < 0 then None else Some(StripLeadingSpaces(segments[k])[|name| + 1..])
  }

  /** A value is found exactly when some segment, once its leading spaces are gone, starts with
      `name=`. */
  lemma CookieValueFound(jar: string, name: string)
    ensures CookieValue(jar, name).Some? <==>
      exists j :: 0 <= j < |Split(jar)| && Matches(Split(jar)[j], name + "=")
  {
    var k := MatchIndex(Split(jar), name + "=");
    if k >= 0 {
      assert Matches(Split(jar)[k], name + "=");
    }
  }

  /** Text that starts with a prefix is that prefix followed by the rest. */
  lemma PrefixThenRest(c: string, prefix: string)
    requires StartsWith(c, prefix)
    ensures c == prefix + c[|prefix|..]
  {
    assert c == c[..|prefix|] + c[|prefix|..];
  }

  /** The value found is the text after `name=` in the first matching segment. */
  lemma CookieValueIsRest(jar: string, name: string)
    requires CookieValue(jar, name).Some?
    ensures var k := MatchIndex(Split(jar), name + "=");
      0 <= k && StripLeadingSpaces(Split(jar)[k]) == name + "=" + CookieValue(jar, name).value
  {
    var nameEQ := name + "=";
    var segments := Split(jar);
    var k := MatchIndex(segments, nameEQ);
    var c := StripLeadingSpaces(segments[k]);
    PrefixThenRest(c, nameEQ);
    assert CookieValue(jar, name).value == c[|nameEQ|..];
  }

  /** The scan as the browser code runs it: split, then for each segment strip the spaces in
      a loop and test the prefix. */
  method GetCookie(jar: string, name: string) returns (value: Option<string>)
    ensures value == CookieValue(jar, name)
  {
    var nameEQ := name + "=";
    var ca := Split(jar);
    var i := 0;
    while i < |ca|
      invariant 0 <= i <= |ca|
      invariant MatchIndex(ca, nameEQ) < 0 || i <= MatchIndex(ca, nameEQ)
    {
      var c := ca[i];
      while |c| > 0 && c[0] == ' '
        invariant StripLeadingSpaces(c) == StripLeadingSpaces(ca[i])
      {
        c := c[1..];
      }
      assert c == StripLeadingSpaces(ca[i]);
      if StartsWith(c, nameEQ) {
        assert MatchIndex(ca, nameEQ) == i;
        return Some(c[|nameEQ|..]);
      }
      i := i + 1;
    }
    return None;
  }

  /** One `key=value` pair as the browser lists it in `document.cookie`. */
  datatype Cookie = Cookie(key: string, val: string)

  predicate ValidCookie(c: Cookie) {
    ';' !in c.key && '=' !in c.key && ';' !in c.val && (|c.key| > 0 ==> c.key[0] != ' ')
  }

  /** The segments of `document.cookie`: pairs joined by `"; "`. */
  function Segments(cookies: seq<Cookie>): seq<string> {
    seq(|cookies|, i requires 0 <= i < |cookies| => (if i == 0 then "" else " ") + cookies[i].key + "=" + cookies[i].val)
  }

  function RenderJar(cookies: seq<Cookie>): string {
    if |cookies| == 0 then "" else Join(Segments(cookies))
  }

  /** The position of the first cookie named `name`, or -1. */
  function KeyIndex(cookies: seq<Cookie>, name: string): (k: int)
    ensures -1 <= k < |cookies|
    ensures k >= 0 ==> cookies[k].key == name
    ensures forall j :: 0 <= j < |cookies| && (k < 0 || j < k) ==> cookies[j].key != name
    decreases |cookies|
  {
    if |cookies| == 0 then -1
    else if cookies[0].key == name then 0
    else
      var k := KeyIndex(cookies[1..], name);
      if k < 0 then -1 else k + 1
  }

  function Lookup(cookies: seq<Cookie>, name: string): Option<string> {
    var k := KeyIndex(cookies, name);
    if k < 0 then None else Some(cookies[k].val)
  }

  /** A pair starts with `name=` exactly when its key is `name`, since neither holds a `=`. */
  lemma KeyPrefix(key: string, val: string, name: string)
    requires '=' !in key && '=' !in name
    ensures StartsWith(key + "=" + val, name + "=") <==> key == name
  {
    var t := key + "=" + val;
    var p := name + "=";
    if key == name {
      assert t[..|p|] == p;
    } else if |key| < |name| {
      assert t[|key|] == '=';
      assert p[|key|] == name[|key|] && name[|key|] != '=';
    } else if |key| == |name| {
      var i :| 0 <= i < |key| && key[i] != name[i];
      assert t[i] == key[i] && p[i] == name[i];
    } else {
      assert t[|name|] == key[|name|] && key[|name|] != '=';
      assert p[|name|] == '=';
    }
  }

  lemma PairMatches(c: Cookie, name: string, lead: string)
    requires ValidCookie(c) && '=' !in name
    requires lead == "" || lead == " "
    ensures StripLeadingSpaces(lead + c.key + "=" + c.val) == c.key + "=" + c.val
    ensures Matches(lead + c.key + "=" + c.val, name + "=") <==> c.key == name
  {
    var t := c.key + "=" + c.val;
    assert t[0] != ' ' by {
      if |c.key| > 0 { assert t[0] == c.key[0]; } else { assert t[0] == '='; }
    }
    assert lead + c.key + "=" + c.val == lead + t;
    if lead == " " {
      assert (lead + t)[1..] == t;
    } else {
      assert lead + t == t;
    }
    KeyPrefix(c.key, c.val, name);
  }

  /** Reading a jar that holds well-formed pairs finds the value of the first pair with that
      name, and nothing when there is none. */
  lemma CookieValueOfJar(cookies: seq<Cookie>, name: string)
    requires forall i :: 0 <= i < |cookies| ==> ValidCookie(cookies[i])
    requires '=' !in name
    ensures CookieValue(RenderJar(cookies), name) == Lookup(cookies, name)
  {
    var nameEQ := name + "=";
    if |cookies| == 0 {
      assert Split("") == [""];
      assert !Matches("", nameEQ);
    } else {
      var segs := Segments(cookies);
      forall i | 0 <= i < |segs| ensures ';' !in segs[i] {
        var lead := if i == 0 then "" else " ";
        assert segs[i] == lead + cookies[i].key + "=" + cookies[i].val;
      }
      SplitJoin(segs);
      forall i | 0 <= i < |segs|
        ensures StripLeadingSpaces(segs[i]) == cookies[i].key + "=" + cookies[i].val
        ensures Matches(segs[i], nameEQ) <==> cookies[i].key == name
      {
        PairMatches(cookies[i], name, if i == 0 then "" else " ");
      }
      var k := MatchIndex(segs, nameEQ);
      var ki := KeyIndex(cookies, name);
      assert k == ki;
      if k >= 0 {
        var t := cookies[k].key + "=" + cookies[k].val;
        assert t[|name| + 1..] == cookies[k].val;
      }
    }
  }
}
