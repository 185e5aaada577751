/**
 * The network location (`netloc`) that Python's `urllib.parse.urlparse`
 * reports for a URL, following its `urlsplit` as of Python 3.12:
 *
 *  1. strip C0 control characters and spaces (U+0000 to U+0020) from the front;
 *  2. delete every tab, carriage return and line feed;
 *  3. take off a scheme: the text before the first ':' when it is non-empty,
 *     starts with an ASCII letter and holds only letters, digits, '+', '-', '.';
 *  4. if what is left starts with "//", the netloc is what follows, up to the
 *     first '/', '?' or '#' (the authority of section 3.2 of RFC 3986);
 *     otherwise the netloc is empty;
 *  5. a netloc holding '[' without ']', or ']' without '[', raises
 *     ValueError("Invalid IPv6 URL").
 */
module UrlSplit {
  import opened Wrappers
  import opened CharClasses

  /** The error `urlsplit` raises that this model covers. */
  datatype SplitError = InvalidIPv6URL

  predicate IsC0OrSpace(c: char) {
    c as int <= 0x20
  }

  /** The characters `urlsplit` deletes wherever they stand. */
  predicate IsUnsafe(c: char) {
    c == '\t' || c == '\r' || c == '\n'
  }

  /** The characters `urllib.parse` allows in a scheme: ASCII letters and digits, '+', '-' and '.'. */
  predicate IsSchemeChar(c: char) {
    Classify(c) != Special || c == '+' || c == '-' || c == '.'
  }

  /** The characters that end an authority. */
  predicate IsDelimiter(c: char) {
    c == '/' || c == '?' || c == '#'
  }

  predicate NoUnsafe(s: string) {
    forall i :: 0 <= i < |s| ==> !IsUnsafe(s[i])
  }

  predicate NoDelimiter(s: string) {
    forall i :: 0 <= i < |s| ==> !IsDelimiter(s[i])
  }

  /** `s.lstrip(...)` over the C0 controls and space. */
  function LStrip(s: string): (r: string)
    ensures |r| <= |s|
  {
    if s != [] && IsC0OrSpace(s[0]) then LStrip(s[1..]) else s
  }

  /** What `LStrip` leaves is the suffix of `s` that starts at its first character above U+0020. */
  lemma {:induction false} LStripSpec(s: string)
    ensures var r := LStrip(s);
            r == s[|s| - |r|..]
            && (forall i :: 0 <= i < |s| - |r| ==> IsC0OrSpace(s[i]))
            && (r == [] || !IsC0OrSpace(r[0]))
    decreases |s|
  {
    if s != [] && IsC0OrSpace(s[0]) {
      LStripSpec(s[1..]);
      var r := LStrip(s);
      assert s[1..][|s| - 1 - |r|..] == s[|s| - |r|..];
      forall i | 1 <= i < |s| - |r| ensures IsC0OrSpace(s[i]) {
        assert s[i] == s[1..][i - 1];
      }
    }
  }

  /** `s` without its tabs, carriage returns and line feeds, the rest kept in order. */
  function RemoveUnsafe(s: string): (r: string)
    ensures |r| <= |s|
  {
    if s == [] then []
    else if IsUnsafe(s[0]) then RemoveUnsafe(s[1..])
    else [s[0]] + RemoveUnsafe(s[1..])
  }

  /** Nothing to delete is left after deleting, and a string with nothing to delete is kept as it is. */
  lemma {:induction false} RemoveUnsafeSpec(s: string)
    ensures NoUnsafe(RemoveUnsafe(s))
    ensures NoUnsafe(s) ==> RemoveUnsafe(s) == s
    decreases |s|
  {
    if s != [] {
      RemoveUnsafeSpec(s[1..]);
      if NoUnsafe(s) {
        assert NoUnsafe(s[1..]) by {
          forall i | 0 <= i < |s| - 1 ensures !IsUnsafe(s[1..][i]) {
            assert s[1..][i] == s[i + 1];
          }
        }
        assert !IsUnsafe(s[0]);
        assert s == [s[0]] + s[1..];
      }
      var t := RemoveUnsafe(s[1..]);
      if !IsUnsafe(s[0]) {
        forall i | 0 <= i < |t| + 1 ensures !IsUnsafe(([s[0]] + t)[i]) {
          if i > 0 {
            assert ([s[0]] + t)[i] == t[i - 1];
          }
        }
      }
    }
  }

  /** Deleting is done piece by piece. */
  lemma {:induction false} RemoveUnsafeAppend(a: string, b: string)
    ensures RemoveUnsafe(a + b) == RemoveUnsafe(a) + RemoveUnsafe(b)
    decreases |a|
  {
    if a == [] {
      assert a + b == b;
    } else {
      assert (a + b)[0] == a[0];
      assert (a + b)[1..] == a[1..] + b;
      RemoveUnsafeAppend(a[1..], b);
    }
  }

  /**
   * `s.find(c, start)`: the first index at or after `start` holding `c`,
   * with |s| standing for Python's -1 (not found).
   */
  function FindFrom(s: string, c: char, start: nat): (i: nat)
    ensures i <= |s|
    ensures i < |s| ==> start <= i && s[i] == c
    decreases |s| - start
  {
    if start >= |s| then |s|
    else if s[start] == c then start
    else FindFrom(s, c, start + 1)
  }

  /** No `c` comes between `start` and what `FindFrom` returns. */
  lemma {:induction false} FindFromFirst(s: string, c: char, start: nat)
    ensures forall j :: start <= j < FindFrom(s, c, start) ==> s[j] != c
    decreases |s| - start
  {
    if start < |s| && s[start] != c {
      FindFromFirst(s, c, start + 1);
    }
  }

  /** Any index that has `c` and no `c` between it and `start` is the one `FindFrom` returns. */
  lemma FindFromIs(s: string, c: char, start: nat, k: nat)
    requires start <= k <= |s|
    requires k < |s| ==> s[k] == c
    requires forall j :: start <= j < k ==> s[j] != c
    ensures FindFrom(s, c, start) == k
  {
    FindFromFirst(s, c, start);
  }

  function Min(a: nat, b: nat): nat {
    if a <= b then a else b
  }

  /**
   * Where the authority that starts at `start` ends, computed as
   * `_splitnetloc` does, as the least of three finds.
   */
  function AuthorityEnd(s: string, start: nat): (e: nat)
    requires start <= |s|
    ensures start <= e <= |s|
    ensures e < |s| ==> IsDelimiter(s[e])
  {
    Min(Min(FindFrom(s, '/', start), FindFrom(s, '?', start)), FindFrom(s, '#', start))
  }

  /** The least of the three finds is the first delimiter at or after `start`. */
  lemma AuthorityEndFirst(s: string, start: nat)
    requires start <= |s|
    ensures forall j :: start <= j < AuthorityEnd(s, start) ==> !IsDelimiter(s[j])
  {
    FindFromFirst(s, '/', start);
    FindFromFirst(s, '?', start);
    FindFromFirst(s, '#', start);
  }

  /** Whether `u` starts with a scheme and the ':' that closes it, at index `i`. */
  predicate SchemeEndsAt(u: string, i: nat) {
    0 < i < |u| && Classify(u[0]) == Letter
    && forall j :: 0 <= j < i ==> IsSchemeChar(u[j])
  }

  /**
   * Where `urlsplit` goes on reading once a scheme and its ':' are taken
   * off: just after the ':', or at 0 when `u` does not start with a scheme.
   */
  function RestStart(u: string): (k: nat)
    ensures k <= |u|
  {
    var i := FindFrom(u, ':', 0);
    if SchemeEndsAt(u, i) then i + 1 else 0
  }

  predicate UnbalancedBrackets(s: string) {
    ('[' in s && ']' !in s) || (']' in s && '[' !in s)
  }

  /** The URL as `urlsplit` reads it: leading controls and spaces stripped, tabs, CRs and LFs deleted. */
  function Clean(url: string): (u: string)
    ensures |u| <= |url|
  {
    RemoveUnsafe(LStrip(url))
  }

  /**
   * `_splitnetloc` applied to what follows index `k`: when "//" stands
   * there, the text after it up to the first delimiter, otherwise nothing.
   */
  function AuthorityFrom(u: string, k: nat): (host: string)
    requires k <= |u|
    ensures |host| <= |u| - k
  {
    if k + 2 <= |u| && u[k] == '/' && u[k + 1] == '/' then u[k + 2..AuthorityEnd(u, k + 2)]
    else []
  }

  /** The text between "//" and the end of the authority, before the bracket check. */
  function Authority(url: string): (host: string)
    ensures |host| <= |url|
  {
    var u := Clean(url);
    AuthorityFrom(u, RestStart(u))
  }

  /** `urlparse(url).netloc`, or the ValueError it raises; never longer than the URL. */
  function Netloc(url: string): (r: Result<string, SplitError>)
    ensures r.Success? ==> |r.value| <= |url|
  {
    var host := Authority(url);
    if UnbalancedBrackets(host) then Failure(InvalidIPv6URL) else Success(host)
  }

  /** An authority never holds a delimiter, and holds a tab, CR or LF only if what it is read from does. */
  lemma AuthorityFromShape(u: string, k: nat)
    requires k <= |u|
    ensures NoDelimiter(AuthorityFrom(u, k))
    ensures NoUnsafe(u) ==> NoUnsafe(AuthorityFrom(u, k))
  {
    if k + 2 <= |u| && u[k] == '/' && u[k + 1] == '/' {
      AuthorityEndFirst(u, k + 2);
      var host := AuthorityFrom(u, k);
      assert forall j :: 0 <= j < |host| ==> host[j] == u[k + 2 + j];
    }
  }

  /** A netloc never holds a '/', '?' or '#', nor a tab, CR or LF. */
  lemma NetlocShape(url: string)
    ensures Netloc(url).Success? ==> NoDelimiter(Netloc(url).value) && NoUnsafe(Netloc(url).value)
  {
    var u := Clean(url);
    RemoveUnsafeSpec(LStrip(url));
    AuthorityFromShape(u, RestStart(u));
  }

  /** A scheme `urlsplit` recognises: an ASCII letter followed by letters, digits, '+', '-' or '.'. */
  predicate ValidScheme(scheme: string) {
    |scheme| > 0 && Classify(scheme[0]) == Letter
    && forall j :: 0 <= j < |scheme| ==> IsSchemeChar(scheme[j])
  }

  /** Cleaning leaves a "scheme://" prefix in place and cleans only what follows. */
  lemma CleanSchemeUrl(scheme: string, tail: string)
    requires ValidScheme(scheme)
    ensures Clean(scheme + "://" + tail) == scheme + "://" + RemoveUnsafe(tail)
  {
    var prefix := scheme + "://";
    var url := prefix + tail;
    assert url[0] == scheme[0];
    assert LStrip(url) == url;
    RemoveUnsafeAppend(prefix, tail);
    assert forall j :: 0 <= j < |scheme| ==> prefix[j] == scheme[j];
    assert NoUnsafe(prefix);
    RemoveUnsafeSpec(prefix);
  }

  /** A recognised scheme is taken off together with its ':'. */
  lemma SchemeTakenOff(scheme: string, rest: string)
    requires ValidScheme(scheme)
    ensures RestStart(scheme + ":" + rest) == |scheme| + 1
  {
    var u := scheme + ":" + rest;
    assert u[|scheme|] == ':';
    assert forall j :: 0 <= j < |scheme| ==> u[j] == scheme[j];
    FindFromIs(u, ':', 0, |scheme|);
  }

  lemma ColonThenSlashes(scheme: string, c: string)
    ensures scheme + "://" + c == scheme + ":" + ("//" + c)
  {
  }

  /** After "//" the authority is the longest run of what follows that reaches no delimiter. */
  lemma AuthorityAfterSlashes(u: string, k: nat, c: string)
    requires k + 2 <= |u| && u[k] == '/' && u[k + 1] == '/' && u[k + 2..] == c
    ensures var h := AuthorityFrom(u, k);
            |h| <= |c| && c[..|h|] == h && (|h| == |c| || IsDelimiter(c[|h|]))
  {
    var e := AuthorityEnd(u, k + 2);
    assert u[k + 2..e] == c[..e - k - 2];
    assert e < |u| ==> u[e] == c[e - k - 2];
  }

  /** After "scheme://" the authority is read from the cleaned tail. */
  lemma AuthorityAfterScheme(scheme: string, tail: string)
    requires ValidScheme(scheme)
    ensures var u := scheme + "://" + RemoveUnsafe(tail);
            |scheme| + 3 <= |u| && u[|scheme| + 1] == '/' && u[|scheme| + 2] == '/'
            && u[|scheme| + 3..] == RemoveUnsafe(tail)
            && Authority(scheme + "://" + tail) == AuthorityFrom(u, |scheme| + 1)
  {
    var c := RemoveUnsafe(tail);
    CleanSchemeUrl(scheme, tail);
    ColonThenSlashes(scheme, c);
    SchemeTakenOff(scheme, "//" + c);
  }

  /**
   * For a URL made of a scheme, "://" and a tail, as "https://" + tail, the
   * authority is taken from the tail: it is never longer than the tail,
   * holds no '/', '?' or '#', and, when the tail holds no tab, CR or LF, it
   * is exactly the tail's run of characters up to the first '/', '?' or '#'.
   */
  lemma SchemeAuthority(scheme: string, tail: string)
    requires ValidScheme(scheme)
    ensures |Authority(scheme + "://" + tail)| <= |tail|
    ensures NoDelimiter(Authority(scheme + "://" + tail))
    ensures NoUnsafe(tail) ==>
              var h := Authority(scheme + "://" + tail);
              tail[..|h|] == h && (|h| == |tail| || IsDelimiter(tail[|h|]))
  {
    var c := RemoveUnsafe(tail);
    AuthorityAfterScheme(scheme, tail);
    AuthorityAfterSlashes(scheme + "://" + c, |scheme| + 1, c);
    AuthorityFromShape(scheme + "://" + c, |scheme| + 1);
    RemoveUnsafeSpec(tail);
  }

  /** Only one prefix of a string runs up to its first delimiter. */
  lemma FirstDelimiterUnique(s: string, a: nat, b: nat)
    requires a <= |s| && b <= |s|
    requires NoDelimiter(s[..a]) && NoDelimiter(s[..b])
    requires a == |s| || IsDelimiter(s[a])
    requires b == |s| || IsDelimiter(s[b])
    ensures a == b
  {
  }

  /**
   * The netloc of "scheme://" + host + rest is the host, when the host holds
   * no delimiter, tab, CR, LF or bracket and the rest is empty or starts
   * with a delimiter.
   */
  lemma SchemeHostNetloc(scheme: string, host: string, rest: string)
    requires ValidScheme(scheme)
    requires NoDelimiter(host) && NoUnsafe(host) && NoUnsafe(rest)
    requires '[' !in host && ']' !in host
    requires rest == [] || IsDelimiter(rest[0])
    ensures Netloc(scheme + "://" + (host + rest)) == Success(host)
  {
    var tail := host + rest;
    assert NoUnsafe(tail) by {
      forall i | 0 <= i < |tail| ensures !IsUnsafe(tail[i]) {
        if i >= |host| {
          assert tail[i] == rest[i - |host|];
        }
      }
    }
    SchemeAuthority(scheme, tail);
    var h := Authority(scheme + "://" + tail);
    assert tail[..|host|] == host;
    assert |host| == |tail| || IsDelimiter(tail[|host|]) by {
      if rest != [] {
        assert tail[|host|] == rest[0];
      }
    }
    FirstDelimiterUnique(tail, |h|, |host|);
  }

  /** Cleaning a reference that starts with '/' keeps its first two characters when the second is not deleted. */
  lemma CleanKeepsLeadingSlash(href: string)
    requires |href| >= 2 && href[0] == '/' && !IsUnsafe(href[1])
    ensures |Clean(href)| >= 2 && Clean(href)[0] == '/' && Clean(href)[1] == href[1]
  {
    assert LStrip(href) == href;
    assert href == href[..2] + href[2..];
    RemoveUnsafeAppend(href[..2], href[2..]);
    assert RemoveUnsafe(href[..2]) == href[..2] by {
      assert NoUnsafe(href[..2]);
      RemoveUnsafeSpec(href[..2]);
    }
  }

  /**
   * A reference that is only a path, such as "/local", has an empty netloc:
   * it starts with one '/' that is not followed by a second '/' (nor by a
   * tab, CR or LF, which would be deleted first).
   */
  lemma PathOnlyNetloc(href: string)
    requires |href| >= 1 && href[0] == '/'
    requires |href| == 1 || (href[1] != '/' && !IsUnsafe(href[1]))
    ensures Netloc(href) == Success("")
  {
    var u := Clean(href);
    assert |u| >= 1 && u[0] == '/' && (|u| >= 2 ==> u[1] != '/') by {
      if |href| == 1 {
        assert LStrip(href) == href;
        assert u == href;
      } else {
        CleanKeepsLeadingSlash(href);
      }
    }
    assert RestStart(u) == 0 by {
      assert Classify(u[0]) != Letter;
    }
    assert AuthorityFrom(u, 0) == [];
  }
}
