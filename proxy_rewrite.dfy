/** The path rewrite of the development server's `/api` proxy
    (vite.config.ts, line 21): `path.replace(/^\/api/, '/api/wedemarkteamopen/2025')`.

    The regular expression is a literal anchored at the start and has no
    `g` flag, so it can match only once, at index 0.  The replacement text
    holds no `$`, so it is inserted literally. */
module ProxyRewrite {

  /** The text the pattern `^\/api` matches. */
  const ApiPrefix: string := "/api"

  /** The replacement string of the proxy entry. */
  const Replacement: string := "/api/wedemarkteamopen/2025"

  /** What the rewrite adds after the matched prefix. */
  const Inserted: string := "/wedemarkteamopen/2025"

  /** Whether the literal `pattern` matches `s` at position 0, compared
      character by character as a regular-expression engine does. */
  predicate MatchesAtStart(pattern: string, s: string)
  {
    pattern == [] || (s != [] && s[0] == pattern[0] && MatchesAtStart(pattern[1..], s[1..]))
  }

  /** An anchored literal match is exactly a sequence prefix. */
  lemma {:induction false} MatchesAtStartIsPrefix(pattern: string, s: string)
    ensures MatchesAtStart(pattern, s) <==> pattern <= s
  {
    if pattern != [] && s != [] {
      MatchesAtStartIsPrefix(pattern[1..], s[1..]);
      assert pattern == [pattern[0]] + pattern[1..];
      assert s == [s[0]] + s[1..];
    }
  }

  /** The proxy's `rewrite` callback.  A path that starts with "/api" has
      those four characters replaced; any other path is passed through. */
  function Rewrite(path: string): (r: string)
    ensures ApiPrefix <= path ==> r == Replacement + path[|ApiPrefix|..]
    ensures !(ApiPrefix <= path) ==> r == path
  {
    MatchesAtStartIsPrefix(ApiPrefix, path);
    if MatchesAtStart(ApiPrefix, path) then Replacement + path[|ApiPrefix|..] else path
  }

  /** With the prefix present the result is 22 characters longer, its head
      is the replacement, and every character after the matched four is
      carried over in place: a later "/api" in the remainder is untouched. */
  lemma RewritePrefixed(path: string)
    requires ApiPrefix <= path
    ensures |Rewrite(path)| == |path| + |Inserted| == |path| + 22
    ensures Replacement <= Rewrite(path)
    ensures forall i :: |ApiPrefix| <= i < |path| ==> Rewrite(path)[i + |Inserted|] == path[i]
  {
  }

  /** Without the prefix the path comes back as it was. */
  lemma RewriteUnprefixed(path: string)
    requires !(ApiPrefix <= path)
    ensures Rewrite(path) == path
  {
  }

  /** Undoes the rewrite: a leading replacement text goes back to "/api". */
  function Restore(r: string): string
  {
    if Replacement <= r then ApiPrefix + r[|Replacement|..] else r
  }

  /** No information is lost: every path is recovered from its rewrite,
      so two different paths never reach the backend as the same one. */
  lemma RestoreRewrite(path: string)
    ensures Restore(Rewrite(path)) == path
  {
  }

  /** On the paths it produces, the rewrite is the inverse of Restore. */
  lemma RewriteRestore(r: string)
    requires Replacement <= r
    ensures Rewrite(Restore(r)) == r
  {
  }

  /** The rewrite is not idempotent: its output starts with "/api" again,
      so a second pass inserts the year segment a second time. */
  lemma RewriteTwice(path: string)
    requires ApiPrefix <= path
    ensures Rewrite(Rewrite(path)) == Replacement + Inserted + path[|ApiPrefix|..]
  {
  }

  /** The match is on text, not on path segments, and is case-sensitive. */
  lemma RewriteExamples()
    ensures Rewrite("/api/teams/count") == "/api/wedemarkteamopen/2025/teams/count"
    ensures Rewrite("/apix") == "/api/wedemarkteamopen/2025x"
    ensures Rewrite("/api") == Replacement
    ensures Rewrite("/API/teams") == "/API/teams"
    ensures Rewrite("/ap") == "/ap"
    ensures Rewrite("/x/api") == "/x/api"
  {
  }
}
