/** What a route element evaluates to: react-router's `<Navigate>` (a
    redirect, optionally replacing the current history entry) or the
    element's children, and how react-router matches a path against a
    route's pattern. */
module Router {

  const LoginPath: string := "/login"

  datatype View<T> = Navigate(to: string, replace: bool) | Children(content: T)

  function LowerChar(c: char): char {
    if 'A' <= c <= 'Z' then (c as int - 'A' as int + 'a' as int) as char else c
  }

  /** ASCII lower-casing, character by character. */
  function Lower(s: string): (r: string)
    ensures |r| == |s|
    ensures forall i :: 0 <= i < |s| ==> r[i] == LowerChar(s[i])
  {
    if s == [] then [] else Lower(s[..|s| - 1]) + [LowerChar(s[|s| - 1])]
  }

  predicate AllSlashes(s: string) {
    forall i :: 0 <= i < |s| ==> s[i] == '/'
  }

  /** `s` without its trailing `/` characters. */
  function StripTrailingSlashes(s: string): (r: string)
    ensures |r| <= |s| && r == s[..|r|]
    ensures AllSlashes(s[|r|..])
    ensures r == [] || r[|r| - 1] != '/'
  {
    if s == [] || s[|s| - 1] != '/' then s
    else
      var r := StripTrailingSlashes(s[..|s| - 1]);
      assert s[|r|..] == s[..|s| - 1][|r|..] + ['/'];
      r
  }

  /** A route without `caseSensitive` matches a path that equals the pattern
      up to ASCII case and trailing slashes (the pattern `/` matches a path
      made of slashes only). */
  predicate RouteMatches(route: string, path: string) {
    Lower(StripTrailingSlashes(path)) == StripTrailingSlashes(route)
  }

  /** The regular-expression form of the same match: the pattern anchored
      at both ends with any number of slashes after it, case ignored. That
      is, the lower-cased path is the pattern followed by slashes only. */
  predicate MatchesRegex(pattern: string, path: string) {
    var lower := Lower(path);
    |pattern| <= |lower| && lower[..|pattern|] == pattern && AllSlashes(lower[|pattern|..])
  }

  /** Stripping trailing slashes has one answer: if `s` is `p` followed by
      slashes and `p` does not end in one, it is `p`. */
  lemma StripUnique(s: string, p: string)
    requires |p| <= |s| && s[..|p|] == p && AllSlashes(s[|p|..])
    requires p == [] || p[|p| - 1] != '/'
    ensures StripTrailingSlashes(s) == p
  {
  }

  /** One direction of `RouteMatchesIffRegex`. */
  lemma MatchImpliesRegex(route: string, path: string)
    requires RouteMatches(route, path)
    ensures MatchesRegex(StripTrailingSlashes(route), path)
  {
    var stripped := StripTrailingSlashes(path);
    var m := |stripped|;
    var lower := Lower(path);
    forall i | 0 <= i < m
      ensures lower[..m][i] == Lower(stripped)[i]
    {
      assert stripped[i] == path[i];
    }
    forall k | 0 <= k < |lower| - m
      ensures lower[m..][k] == '/'
    {
      assert path[m..][k] == path[m + k];
    }
  }

  /** The other direction of `RouteMatchesIffRegex`. */
  lemma RegexImpliesMatch(route: string, path: string)
    requires MatchesRegex(StripTrailingSlashes(route), path)
    ensures RouteMatches(route, path)
  {
    var pattern := StripTrailingSlashes(route);
    var m := |pattern|;
    var lower := Lower(path);
    var p := path[..m];
    forall k | 0 <= k < |path| - m
      ensures path[m..][k] == '/'
    {
      assert lower[m..][k] == lower[m + k];
    }
    if p != [] {
      assert pattern[m - 1] == lower[m - 1];
    }
    StripUnique(path, p);
    forall i | 0 <= i < m
      ensures Lower(p)[i] == pattern[i]
    {
      assert lower[..m][i] == lower[i];
    }
  }

  /** The matching rule agrees with the regular expression react-router
      compiles a route's path into. */
  lemma RouteMatchesIffRegex(route: string, path: string)
    ensures RouteMatches(route, path) <==> MatchesRegex(StripTrailingSlashes(route), path)
  {
    if RouteMatches(route, path) {
      MatchImpliesRegex(route, path);
    }
    if MatchesRegex(StripTrailingSlashes(route), path) {
      RegexImpliesMatch(route, path);
    }
  }
}
