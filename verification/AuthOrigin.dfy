/** Which pages may change state: `espos_httpd_auth_origin_matches` compares the authority of the
    Origin or Referer header with the Host header (components/espos_httpd/src/auth_policy.c:324-355). */
module AuthOrigin {
  import opened Esp

  const SEPARATOR := "://"
  const PORT := ":80"

  predicate Ends(c: char) {
    c == '/' || c == '?' || c == '#'
  }

  /** What follows the first "://", or the whole text without one. */
  function AfterScheme(s: string): string {
    var i := FirstSeparator(s);
    if i < |s| then s[i + 3..] else s
  }

  function FirstSeparator(s: string): (i: nat)
    ensures i <= |s| && (i < |s| ==> i + 3 <= |s| && s[i..i + 3] == SEPARATOR)
  {
    if s == "" || Opens(s) then 0 else
      var rest := FirstSeparator(s[1..]);
      assert rest < |s[1..]| ==> s[1 + rest..1 + rest + 3] == s[1..][rest..rest + 3];
      1 + rest
  }

  /** The text starts with the separator. */
  predicate Opens(s: string) {
    |s| >= 3 && s[0] == ':' && s[1] == '/' && s[2] == '/'
  }

  /** The text up to a path, a query or a fragment. */
  function UpToPath(s: string): (r: string)
    ensures r <= s && (forall i :: 0 <= i < |r| ==> !Ends(r[i])) && (|r| < |s| ==> Ends(s[|r|]))
  {
    if s == "" || Ends(s[0]) then "" else [s[0]] + UpToPath(s[1..])
  }

  function DropPort(a: string): string {
    if |a| >= 3 && a[|a| - 3..] == PORT then a[..|a| - 3] else a
  }

  function Authority(s: string): string {
    DropPort(UpToPath(AfterScheme(s)))
  }

  predicate Matches(origin: Option<string>, host: Option<string>) {
    && origin.Some? && host.Some? && origin.value != "" && host.value != ""
    && Authority(origin.value) != "" && Lowercase(Authority(origin.value)) == Lowercase(Authority(host.value))
  }

  predicate Plain(s: string) {
    forall i :: 0 <= i < |s| ==> !Ends(s[i])
  }

  lemma {:induction false} NoSeparator(s: string)
    requires Plain(s)
    ensures FirstSeparator(s) == |s|
  {
    if s != "" {
      NoSeparator(s[1..]);
      assert !Opens(s);
    }
  }

  lemma {:induction false} SeparatorAfter(scheme: string, rest: string)
    requires Plain(scheme)
    ensures FirstSeparator(scheme + SEPARATOR + rest) == |scheme|
  {
    var s := scheme + SEPARATOR + rest;
    if scheme == "" {
      assert s[0] == ':' && s[1] == '/' && s[2] == '/';
    } else {
      SeparatorAfter(scheme[1..], rest);
      assert s[1..] == scheme[1..] + SEPARATOR + rest;
      assert s[1] == if |scheme| > 1 then scheme[1] else ':';
      assert !Opens(s);
    }
  }

  lemma {:induction false} PathCutOff(a: string, rest: string)
    requires Plain(a) && (rest != "" ==> Ends(rest[0]))
    ensures UpToPath(a + rest) == a
  {
    if a == "" { assert a + rest == rest; }
    else {
      PathCutOff(a[1..], rest);
      assert (a + rest)[1..] == a[1..] + rest && (a + rest)[0] == a[0];
    }
  }

  /** The authority of an address is its host and port whatever its scheme and path, port 80 left out. */
  lemma {:induction false} AuthorityOfAddress(scheme: string, a: string, rest: string)
    requires Plain(scheme) && Plain(a) && (rest != "" ==> Ends(rest[0]))
    ensures Authority(scheme + SEPARATOR + a + rest) == DropPort(a)
    ensures Authority(a) == DropPort(a)
  {
    hide FirstSeparator, UpToPath;
    var s := scheme + SEPARATOR + (a + rest);
    assert scheme + SEPARATOR + a + rest == s;
    SeparatorAfter(scheme, a + rest);
    assert s[|scheme| + 3..] == a + rest;
    PathCutOff(a, rest);
    NoSeparator(a);
    PathCutOff(a, "");
    assert a + "" == a;
  }

  /** A page of any scheme and path matches exactly the host it was loaded from, letter case and port 80 aside. */
  lemma {:induction false} PageMatchesItsHost(scheme: string, a: string, rest: string, host: string)
    requires Plain(scheme) && Plain(a) && Plain(host) && (rest != "" ==> Ends(rest[0]))
    ensures Matches(Some(scheme + SEPARATOR + a + rest), Some(host)) <==>
            host != "" && DropPort(a) != "" && Lowercase(DropPort(a)) == Lowercase(DropPort(host))
  {
    hide FirstSeparator, UpToPath, DropPort;
    AuthorityOfAddress(scheme, a, rest);
    AuthorityOfAddress("", host, "");
  }

  /** What a path may start with, and what counts as the same letter. */
  lemma {:induction false} CharactersAre(c: char, d: char)
    ensures Ends(c) <==> c in "/?#"
    ensures Lower(c) == Lower(d) <==>
      || c == d
      || ('A' <= c <= 'Z' && d as int == c as int + 32)
      || ('A' <= d <= 'Z' && c as int == d as int + 32)
  {
    assert "/?#"[0] == '/' && "/?#"[1] == '?' && "/?#"[2] == '#';
  }

  /** A page on a given port matches the bare host exactly if that port is 80. */
  lemma {:induction false} OnlyDefaultPortIsBare(scheme: string, a: string, port: string, rest: string)
    requires Plain(scheme) && Plain(a) && Plain(port) && (rest != "" ==> Ends(rest[0])) && a != "" && ':' !in a && ':' !in port
    ensures Matches(Some(scheme + "://" + (a + ":" + port) + rest), Some(a)) <==> port == "80"
  {
    hide FirstSeparator, UpToPath, DropPort;
    var full := a + ":" + port;
    assert Plain(full);
    PageMatchesItsHost(scheme, full, rest, a);
    PortDropped(a, port);
    assert Lowercase(full)[|a|] == ':' by { assert full[|a|] == ':'; }
    assert |Lowercase(full)| != |Lowercase(a)|;
  }

  lemma {:induction false} PortDropped(a: string, port: string)
    requires ':' !in a && ':' !in port
    ensures DropPort(a) == a && DropPort(a + ":" + port) == if port == "80" then a else a + ":" + port
  {
    var full := a + ":" + port;
    PortAtEnd(a);
    PortAtEnd(full);
    if port == "80" { assert full[..|full| - 3] == a; }
  }

  lemma {:induction false} PortAtEnd(s: string)
    ensures |s| >= 3 && s[|s| - 3..] == PORT <==> |s| >= 3 && s[|s| - 3] == ':' && s[|s| - 2] == '8' && s[|s| - 1] == '0'
  {
    if |s| >= 3 {
      var t := s[|s| - 3..];
      assert t == [s[|s| - 3], s[|s| - 2], s[|s| - 1]] && PORT == [':', '8', '0'];
      assert t == PORT <==> t[0] == PORT[0] && t[1] == PORT[1] && t[2] == PORT[2];
    }
  }

  /** The comparison, letter by letter. */
  method OriginMatches(origin: Option<string>, host: Option<string>) returns (same: bool)
    ensures same == Matches(origin, host)
  {
    hide FirstSeparator, UpToPath, DropPort;
    if origin.None? || host.None? || origin.value == "" || host.value == "" { return false; }
    var a, b := Authority(origin.value), Authority(host.value);
    if |a| == 0 || |a| != |b| {
      assert |a| != |b| ==> |Lowercase(a)| != |Lowercase(b)|;
      return false;
    }
    for i := 0 to |a|
      invariant forall j :: 0 <= j < i ==> Lower(a[j]) == Lower(b[j])
    {
      if Lower(a[i]) != Lower(b[i]) {
        assert Lowercase(a)[i] != Lowercase(b)[i];
        return false;
      }
    }
    return true;
  }
}
