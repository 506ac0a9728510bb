/**
 * Models crates/uv-auth/src/realm.rs: the part of a URL that decides where credentials may go, and
 * its text form, which the credentials trie uses as the first component of every path.
 */
module Realm {
  import opened Wrappers

  /** The parts of a URL that authentication looks at; a default port is reported as absent. */
  datatype Url = Url(scheme: string, host: Option<string>, port: Option<nat>, segments: seq<string>)

  datatype Realm = Realm(scheme: string, host: Option<string>, port: Option<nat>)

  function RealmOf(url: Url): Realm {
    Realm(url.scheme, url.host, url.port)
  }

  function Digit(d: nat): char
    requires d < 10
  {
    ('0' as int + d) as char
  }

  function Decimal(n: nat): string {
    if n < 10 then [Digit(n)] else Decimal(n / 10) + [Digit(n % 10)]
  }

  function HostText(host: Option<string>): string {
    if host.Some? then host.value else ""
  }

  function PortText(port: Option<nat>): string {
    if port.Some? then ":" + Decimal(port.value) else ""
  }

  function Text(r: Realm): string {
    r.scheme + ":" + ("//" + (HostText(r.host) + PortText(r.port)))
  }

  /** What section 3.2.2 of RFC 3986 allows: a host has no colon unless it is a bracketed address. */
  predicate WellFormed(r: Realm) {
    && ':' !in r.scheme
    && (var h := HostText(r.host); ':' !in h || h[|h| - 1] == ']')
  }

  /** The text is the scheme and the authority of the URL, and two URLs share a realm if they agree in both. */
  lemma {:induction false} RealmsOfUrls(a: Url, b: Url)
    ensures RealmOf(a) == RealmOf(b) <==> a.scheme == b.scheme && a.host == b.host && a.port == b.port
    ensures Text(RealmOf(Url("https", Some("h"), None, ["p"]))) == "https://h"
    ensures Text(RealmOf(Url("http", Some("h"), Some(8080), []))) == "http://h:8080"
  {
    assert Decimal(8080) == "8080";
    assert "https" + ":" + ("//" + ("h" + "")) == "https://h";
    assert "http" + ":" + ("//" + ("h" + (":" + "8080"))) == "http://h:8080";
  }

  /** Two realms that differ only in an absent host against an empty one print alike. */
  predicate SameUpToEmptyHost(a: Realm, b: Realm) {
    a.scheme == b.scheme && HostText(a.host) == HostText(b.host) && a.port == b.port
  }

  /** The text form identifies a well-formed realm, up to an absent host against an empty one. */
  lemma {:induction false} TextIdentifiesRealm(a: Realm, b: Realm)
    requires WellFormed(a) && WellFormed(b)
    ensures Text(a) == Text(b) <==> SameUpToEmptyHost(a, b)
    ensures a.host.Some? && b.host.Some? ==> (Text(a) == Text(b) <==> a == b)
  {
    if Text(a) == Text(b) {
      var x, y := "//" + (HostText(a.host) + PortText(a.port)), "//" + (HostText(b.host) + PortText(b.port));
      FirstColon(a.scheme, x, b.scheme, y);
      assert HostText(a.host) + PortText(a.port) == x[2..] && HostText(b.host) + PortText(b.port) == y[2..];
      PortPresence(HostText(a.host), a.port, HostText(b.host), b.port);
      if a.port.Some? {
        LastColon(HostText(a.host), Decimal(a.port.value), HostText(b.host), Decimal(b.port.value));
        DecimalInjective(a.port.value, b.port.value);
      } else {
        assert HostText(a.host) + "" == HostText(a.host) && HostText(b.host) + "" == HostText(b.host);
      }
    }
  }

  lemma {:induction false} FirstColon(a: string, x: string, b: string, y: string)
    requires ':' !in a && ':' !in b && a + ":" + x == b + ":" + y
    ensures a == b && x == y
  {
    var s, t := a + ":" + x, b + ":" + y;
    assert s[|a|] == ':' && t[|b|] == ':';
    assert forall i :: 0 <= i < |a| ==> s[i] == a[i];
    assert forall i :: 0 <= i < |b| ==> t[i] == b[i];
    assert |a| == |b|;
    assert a == s[..|a|] && b == t[..|b|] && x == s[|a| + 1..] && y == t[|b| + 1..];
  }

  lemma {:induction false} DecimalIsDigits(n: nat)
    ensures Decimal(n) != [] && forall i :: 0 <= i < |Decimal(n)| ==> '0' <= Decimal(n)[i] <= '9'
    decreases n
  {
    if n >= 10 {
      DecimalIsDigits(n / 10);
    }
  }

  lemma {:induction false} LastColon(h: string, d: string, g: string, e: string)
    requires ':' !in d && ':' !in e && h + (":" + d) == g + (":" + e)
    ensures h == g && d == e
  {
    var s, t := h + (":" + d), g + (":" + e);
    assert s[|h|] == ':' && t[|g|] == ':';
    assert forall i :: |h| < i < |s| ==> s[i] == d[i - |h| - 1];
    assert forall i :: |g| < i < |t| ==> t[i] == e[i - |g| - 1];
    assert |h| == |g|;
    assert h == s[..|h|] && g == t[..|g|] && d == s[|h| + 1..] && e == t[|g| + 1..];
  }

  /** Whether a port is printed can be read off the text. */
  lemma {:induction false} PortPresence(h: string, p: Option<nat>, g: string, q: Option<nat>)
    requires (':' !in h || h[|h| - 1] == ']') && (':' !in g || g[|g| - 1] == ']')
    requires h + PortText(p) == g + PortText(q)
    ensures p.Some? <==> q.Some?
    ensures p.Some? ==> ':' !in Decimal(p.value) && ':' !in Decimal(q.value)
  {
    PortIsVisible(h, p);
    PortIsVisible(g, q);
    if p.Some? {
      DecimalIsDigits(p.value);
      DecimalIsDigits(q.value);
    }
  }

  predicate ShowsPort(s: string) {
    s != [] && ':' in s && s[|s| - 1] != ']'
  }

  lemma {:induction false} PortIsVisible(h: string, p: Option<nat>)
    requires ':' !in h || h[|h| - 1] == ']'
    ensures p.Some? <==> ShowsPort(h + PortText(p))
  {
    if p.Some? {
      DecimalIsDigits(p.value);
      var s := h + PortText(p);
      assert s[|h|] == ':';
      assert s[|s| - 1] == Decimal(p.value)[|Decimal(p.value)| - 1];
    } else {
      assert h + PortText(p) == h;
    }
  }

  lemma {:induction false} DecimalInjective(n: nat, m: nat)
    requires Decimal(n) == Decimal(m)
    ensures n == m
    decreases n
  {
    DecimalLength(n);
    DecimalLength(m);
    assert Decimal(n)[|Decimal(n)| - 1] == Digit(n % 10);
    assert Decimal(m)[|Decimal(m)| - 1] == Digit(m % 10);
    if n >= 10 {
      assert Decimal(n / 10) == Decimal(n)[..|Decimal(n)| - 1];
      assert Decimal(m / 10) == Decimal(m)[..|Decimal(m)| - 1];
      DecimalInjective(n / 10, m / 10);
    }
  }

  lemma {:induction false} DecimalLength(n: nat)
    ensures |Decimal(n)| >= 1 && (n >= 10 <==> |Decimal(n)| > 1)
    decreases n
  {
    if n >= 10 {
      DecimalLength(n / 10);
    }
  }
}
