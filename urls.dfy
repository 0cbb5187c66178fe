/**
 * The network-location ("netloc") part of a URL, as `urllib.parse.urlparse(url).netloc` finds it:
 * a leading scheme name up to the first ':' is removed, and if what is left starts with "//",
 * the netloc is what follows up to the next '/', '?' or '#'; otherwise it is empty.
 */
module Urls {
  import opened Text

  predicate IsAsciiLetter(c: char) {
    'a' <= c <= 'z' || 'A' <= c <= 'Z'
  }

  /** The characters a scheme name may hold: ASCII letters, digits, '+', '-' and '.'. */
  predicate IsSchemeChar(c: char) {
    IsAsciiLetter(c) || '0' <= c <= '9' || c == '+' || c == '-' || c == '.'
  }

  predicate IsSchemeName(s: string) {
    |s| > 0 && IsAsciiLetter(s[0]) && forall i :: 0 <= i < |s| ==> IsSchemeChar(s[i])
  }

  /** The URL with its scheme and ':' removed, or the whole URL when it does not start with a scheme. */
  function AfterScheme(url: string): (rest: string)
    ensures rest == url || (exists i :: 0 < i < |url| && url[i] == ':' && rest == url[i + 1..])
  {
    var i := |UpTo(url, {':'})|;
    if i < |url| && IsSchemeName(url[..i]) then url[i + 1..] else url
  }

  const Delimiters: set<char> := {'/', '?', '#'}

  /** `urlparse(url).netloc`. */
  function Netloc(url: string): (host: string)
    ensures forall i :: 0 <= i < |host| ==> host[i] !in Delimiters
  {
    var rest := AfterScheme(url);
    if |rest| >= 2 && rest[..2] == "//" then UpTo(rest[2..], Delimiters) else ""
  }

  /** A URL that starts with a scheme name loses exactly `scheme:`. */
  lemma AfterSchemeName(scheme: string, rest: string)
    requires IsSchemeName(scheme)
    ensures AfterScheme(scheme + ":" + rest) == rest
  {
    var url := scheme + ":" + rest;
    assert url == scheme + (":" + rest);
    assert forall i :: 0 <= i < |scheme| ==> scheme[i] != ':';
    UpToAppend(scheme, ":" + rest, {':'});
    assert (":" + rest)[0] == ':';
    assert url[..|scheme|] == scheme;
    assert url[|scheme| + 1..] == rest;
  }

  /** `scheme://host/path` has netloc `host`. */
  lemma NetlocOfAbsoluteUrl(scheme: string, host: string, path: string)
    requires IsSchemeName(scheme)
    requires forall i :: 0 <= i < |host| ==> host[i] !in Delimiters
    requires path == [] || path[0] in Delimiters
    ensures Netloc(scheme + "://" + host + path) == host
  {
    var rest := "//" + host + path;
    assert scheme + "://" + host + path == scheme + ":" + rest;
    AfterSchemeName(scheme, rest);
    assert rest[..2] == "//" && rest[2..] == host + path;
    UpToAppend(host, path, Delimiters);
    assert UpTo(path, Delimiters) == [];
    assert host + [] == host;
  }

  /** A URL with neither a scheme nor a leading "//" has an empty netloc. */
  lemma NetlocOfRelativeUrl(url: string)
    requires forall i :: 0 <= i < |url| ==> url[i] != ':'
    requires |url| < 2 || url[..2] != "//"
    ensures Netloc(url) == ""
  {
  }
}
