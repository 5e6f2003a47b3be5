/** The database URL the application connects to (app.py lines 12-14): hosting providers hand out
    `postgres://` URLs, which SQLAlchemy no longer accepts, so that scheme is renamed. */
module DatabaseUrl {
  import opened Outcomes

  const LegacyScheme := "postgres://"
  const Scheme := "postgresql://"
  /** Used when DATABASE_URL is not set. */
  const DefaultUrl := "sqlite:///local.db"

  /** `s.startswith(prefix)`: `s` is `prefix` followed by something. */
  predicate StartsWith(s: string, prefix: string): (b: bool)
    ensures b <==> exists tail :: s == prefix + tail
  {
    if |prefix| <= |s| && s[..|prefix|] == prefix then
      assert s == prefix + s[|prefix|..];
      true
    else false
  }

  /** `pat` occurs in `s` at index `i`. */
  predicate OccursAt(s: string, pat: string, i: nat) {
    i + |pat| <= |s| && s[i..i + |pat|] == pat
  }

  /** `s.replace(pat, rep, 1)`: the first occurrence of `pat`, scanning from the left, becomes `rep`.
      The contract covers an occurrence at the start and no occurrence at all; `FirstOccurrence`
      covers an occurrence anywhere. */
  function ReplaceFirst(s: string, pat: string, rep: string): (r: string)
    requires pat != []
    ensures StartsWith(s, pat) ==> r == rep + s[|pat|..]
    ensures (forall i: nat :: !OccursAt(s, pat, i)) ==> r == s
  {
    if |s| < |pat| then s
    else if s[..|pat|] == pat then
      assert OccursAt(s, pat, 0);
      rep + s[|pat|..]
    else
      assert forall i: nat :: OccursAt(s[1..], pat, i) ==> OccursAt(s, pat, i + 1) by {
        forall i: nat | OccursAt(s[1..], pat, i) ensures OccursAt(s, pat, i + 1) {
          assert s[1..][i..i + |pat|] == s[i + 1..i + 1 + |pat|];
        }
      }
      [s[0]] + ReplaceFirst(s[1..], pat, rep)
  }

  /** An occurrence in `s[1..]` is an occurrence in `s` one place further on. */
  lemma ShiftOccurs(s: string, pat: string, j: nat)
    requires s != []
    ensures OccursAt(s[1..], pat, j) <==> OccursAt(s, pat, j + 1)
  {
    if j + |pat| <= |s| - 1 {
      assert s[1..][j..j + |pat|] == s[j + 1..j + 1 + |pat|];
    }
  }

  /** With no occurrence at the start, `ReplaceFirst` keeps the first character and goes on. */
  lemma ReplaceFirstStep(s: string, pat: string, rep: string)
    requires pat != [] && |pat| <= |s| && !OccursAt(s, pat, 0)
    ensures ReplaceFirst(s, pat, rep) == [s[0]] + ReplaceFirst(s[1..], pat, rep)
  {
    assert s[..|pat|] != pat;
  }

  /** No occurrence in `s` before `i + 1` means none in `s[1..]` before `i`. */
  lemma NoEarlierShift(s: string, pat: string, i: nat)
    requires s != [] && forall j: nat :: j < i + 1 ==> !OccursAt(s, pat, j)
    ensures forall j: nat :: j < i ==> !OccursAt(s[1..], pat, j)
  {
    forall j: nat | j < i ensures !OccursAt(s[1..], pat, j) {
      ShiftOccurs(s, pat, j);
    }
  }

  /** The first character put back in front of a replacement made in `s[1..]`. */
  lemma ConsReplaced(s: string, rep: string, i: nat, k: nat)
    requires 0 < i <= k <= |s|
    ensures [s[0]] + (s[1..][..i - 1] + rep + s[1..][k - 1..]) == s[..i] + rep + s[k..]
  {
    assert s[..i] == [s[0]] + s[1..][..i - 1];
    assert s[1..][k - 1..] == s[k..];
  }

  /** When the leftmost occurrence of `pat` is at `i`, `ReplaceFirst` puts `rep` in its place and
      keeps everything before and after it. */
  lemma {:induction false} FirstOccurrence(s: string, pat: string, rep: string, i: nat)
    requires pat != [] && OccursAt(s, pat, i)
    requires forall j: nat :: j < i ==> !OccursAt(s, pat, j)
    ensures ReplaceFirst(s, pat, rep) == s[..i] + rep + s[i + |pat|..]
    decreases i
  {
    if i == 0 {
      assert StartsWith(s, pat) by {
        assert s[..|pat|] == pat;
      }
      assert s[..0] == [];
    } else {
      ReplaceFirstStep(s, pat, rep);
      NoEarlierShift(s, pat, i - 1);
      ShiftOccurs(s, pat, i - 1);
      FirstOccurrence(s[1..], pat, rep, i - 1);
      ConsReplaced(s, rep, i, i + |pat|);
    }
  }

  /** The rewrite at app.py lines 13-14: a URL with the legacy scheme gets the new scheme in front of
      its unchanged remainder, any other URL is kept, and the result never has the legacy scheme. */
  function Rewrite(url: string): (r: string)
    ensures StartsWith(url, LegacyScheme) ==> r == Scheme + url[|LegacyScheme|..]
    ensures !StartsWith(url, LegacyScheme) ==> r == url
    ensures !StartsWith(r, LegacyScheme)
  {
    if StartsWith(url, LegacyScheme) then
      var r := ReplaceFirst(url, LegacyScheme, Scheme);
      assert r[8] != LegacyScheme[8];
      r
    else url
  }

  /** The configured URI: the DATABASE_URL environment value (a parameter here) or the SQLite default,
      after the rewrite. */
  function ConfiguredUri(env: Option<string>): (r: string)
    ensures env.None? ==> r == DefaultUrl
    ensures env.Some? && !StartsWith(env.value, LegacyScheme) ==> r == env.value
    ensures env.Some? && StartsWith(env.value, LegacyScheme) ==> r == Scheme + env.value[|LegacyScheme|..]
    ensures !StartsWith(r, LegacyScheme)
  {
    assert DefaultUrl[0] != LegacyScheme[0];
    Rewrite(if env.Some? then env.value else DefaultUrl)
  }

  /** Rewriting twice is rewriting once, and a URL already in the new scheme is left alone. */
  lemma {:induction false} RewriteIdempotent(url: string)
    ensures Rewrite(Rewrite(url)) == Rewrite(url)
    ensures StartsWith(url, Scheme) ==> Rewrite(url) == url
  {
  }
}
