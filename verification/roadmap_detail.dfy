/**
 * The roadmap detail page's pure helpers: the cumulative per-stage progress
 * series of the chart, turning a free-text resource into a link (its URL and
 * its label), and the value a completion toggle requests.
 */
module RoadmapDetail {
  import opened Optional
  import opened RoadmapModel
  import Text
  import Seqs
  import RoadmapRoutes

  // ---------------------------------------------------------------------------
  // Progress series
  // ---------------------------------------------------------------------------

  /** One chart point: the running completed and total topic counts up to and
      including a stage. */
  datatype ProgressPoint = ProgressPoint(stage: string, completed: nat, total: nat)

  function StageLabel(index: nat): string {
    "Stage " + Text.Decimal(index + 1)
  }

  /** Counts over a longer prefix of the stages are never smaller. */
  lemma {:induction false} PrefixCountsGrow(stages: seq<Stage>, i: nat, j: nat)
    requires i <= j <= |stages|
    ensures TotalTopics(stages[..i]) <= TotalTopics(stages[..j])
    ensures CompletedTopics(stages[..i]) <= CompletedTopics(stages[..j])
    decreases j - i
  {
    if i < j {
      PrefixCountsGrow(stages, i, j - 1);
      assert stages[..j][..j - 1] == stages[..j - 1];
    }
  }

  /** `getProgressData`: one point per stage, labelled "Stage 1", "Stage 2", …,
      holding the counts of the stages up to it. */
  method ProgressData(stages: seq<Stage>) returns (points: seq<ProgressPoint>)
    ensures |points| == |stages|
    ensures forall i :: 0 <= i < |points| ==> points[i].stage == StageLabel(i)
    ensures forall i :: 0 <= i < |points| ==>
              && points[i].total == TotalTopics(stages[..i + 1])
              && points[i].completed == CompletedTopics(stages[..i + 1])
  {
    var done, total := 0, 0;
    points := [];
    var i := 0;
    while i < |stages|
      invariant 0 <= i <= |stages| && |points| == i
      invariant done == CompletedTopics(stages[..i]) && total == TotalTopics(stages[..i])
      invariant forall k :: 0 <= k < i ==>
                  points[k] == ProgressPoint(StageLabel(k), CompletedTopics(stages[..k + 1]), TotalTopics(stages[..k + 1]))
    {
      assert stages[..i + 1][..i] == stages[..i];
      done := done + CompletedIn(stages[i].topics);
      total := total + |stages[i].topics|;
      points := points + [ProgressPoint(StageLabel(i), done, total)];
      i := i + 1;
    }
  }

  /** The series agrees with the saved counters: no stages give no points;
      otherwise both running counts never decrease, never show more completed
      topics than topics, and end at the `totalTopics` and `completedTopics`
      the save-time derivation stores for the same stages. */
  lemma ProgressSeriesAgreesWithSave(stages: seq<Stage>, points: seq<ProgressPoint>, r: Roadmap, now: Time)
    requires r.stages == stages
    requires |points| == |stages|
    requires forall i :: 0 <= i < |points| ==>
               && points[i].total == TotalTopics(stages[..i + 1])
               && points[i].completed == CompletedTopics(stages[..i + 1])
    ensures stages == [] ==> points == []
    ensures forall i :: 0 <= i < |points| ==> points[i].completed <= points[i].total
    ensures forall i, j :: 0 <= i <= j < |points| ==>
              points[i].total <= points[j].total && points[i].completed <= points[j].completed
    ensures |points| > 0 ==> && points[|points| - 1].total == Derive(r, now).totalTopics
                             && points[|points| - 1].completed == Derive(r, now).completedTopics
  {
    forall i | 0 <= i < |points| ensures points[i].completed <= points[i].total {
      CompletedAtMostTotal(stages[..i + 1]);
    }
    forall i, j | 0 <= i <= j < |points|
      ensures points[i].total <= points[j].total && points[i].completed <= points[j].completed
    {
      PrefixCountsGrow(stages, i + 1, j + 1);
    }
    if |points| > 0 {
      assert stages[..|points|] == stages;
    }
  }

  // ---------------------------------------------------------------------------
  // Resource links
  // ---------------------------------------------------------------------------

  predicate StartsWith(s: string, prefix: string) {
    |prefix| <= |s| && s[..|prefix|] == prefix
  }

  /** Characters that end a URL: `[^\s)]` excludes them. */
  predicate IsUrlStop(c: char) {
    Text.IsSpace(c) || c == ')'
  }

  /** Length of the longest prefix of `s` free of URL stops. */
  function UrlRun(s: string): (n: nat)
    ensures n <= |s|
    ensures forall k :: 0 <= k < n ==> !IsUrlStop(s[k])
    ensures n < |s| ==> IsUrlStop(s[n])
  {
    if |s| == 0 || IsUrlStop(s[0]) then 0 else 1 + UrlRun(s[1..])
  }

  /** Length of the `http://` or `https://` that `s` starts with, 0 for neither. */
  function SchemeLength(s: string): nat {
    if StartsWith(s, "https://") then 8 else if StartsWith(s, "http://") then 7 else 0
  }

  /** `/https?:\/\/[^\s)]+/` matches at position `p`: a scheme and at least one
      character that is not a URL stop. */
  predicate UrlAt(s: string, p: nat) {
    p <= |s| && SchemeLength(s[p..]) > 0 && p + SchemeLength(s[p..]) < |s| && !IsUrlStop(s[p + SchemeLength(s[p..])])
  }

  /** The text the pattern matches at `p`: the scheme and every following
      character up to the first whitespace or `)`. */
  function UrlMatchAt(s: string, p: nat): (u: string)
    requires UrlAt(s, p)
    ensures Text.InfixAt(u, s, p)
  {
    var n := SchemeLength(s[p..]);
    s[p..p + n + UrlRun(s[p + n..])]
  }

  /** The position of the leftmost match at or after `p`. */
  function FirstUrlFrom(s: string, p: nat): (r: Option<nat>)
    requires p <= |s|
    ensures r.Some? ==> && p <= r.value <= |s| && UrlAt(s, r.value)
                        && forall q :: p <= q < r.value ==> !UrlAt(s, q)
    ensures r.None? ==> forall q :: p <= q ==> !UrlAt(s, q)
    decreases |s| - p
  {
    if UrlAt(s, p) then Some(p)
    else if p == |s| then None
    else FirstUrlFrom(s, p + 1)
  }

  /** `[\w-]`: the characters of a domain label. */
  predicate IsLabelChar(c: char) {
    Text.IsWordChar(c) || c == '-'
  }

  predicate AllLabelChars(s: string) {
    forall k :: 0 <= k < |s| ==> IsLabelChar(s[k])
  }

  /** `^[\w-]+(\.[\w-]+)+` matches a prefix ending at `m`, with its first dot at `k`. */
  predicate DomainPrefixAt(s: string, k: nat, m: nat) {
    1 <= k && k + 1 < m <= |s| && AllLabelChars(s[..k]) && s[k] == '.' && AllLabelChars(s[k + 1..m])
  }

  /** Length of the leading run of domain-label characters. */
  function LabelRun(s: string): (n: nat)
    ensures n <= |s| && AllLabelChars(s[..n])
    ensures n < |s| ==> !IsLabelChar(s[n])
  {
    if |s| == 0 || !IsLabelChar(s[0]) then 0
    else
      var n := 1 + LabelRun(s[1..]);
      assert forall k :: 1 <= k < n ==> s[k] == s[1..][k - 1];
      n
  }

  /** In a domain-like prefix the first dot ends the leading label run and is
      followed by a label character. */
  lemma DomainDotEndsRun(s: string, k: nat, m: nat)
    requires DomainPrefixAt(s, k, m)
    ensures k == LabelRun(s) && IsLabelChar(s[k + 1])
  {
    var n := LabelRun(s);
    assert forall j :: 0 <= j < k ==> IsLabelChar(s[j]) by {
      forall j | 0 <= j < k ensures IsLabelChar(s[j]) {
        assert s[..k][j] == s[j];
      }
    }
    assert forall j :: 0 <= j < n ==> IsLabelChar(s[j]) by {
      forall j | 0 <= j < n ensures IsLabelChar(s[j]) {
        assert s[..n][j] == s[j];
      }
    }
    assert s[k + 1..m][0] == s[k + 1];
  }

  /** Whether the resource starts like a bare domain (`name.tld…`): the leading
      label run is non-empty and is followed by a dot and one more label character. */
  function LooksLikeDomain(s: string): (b: bool)
    ensures b <==> exists k, m :: DomainPrefixAt(s, k, m)
  {
    var k := LabelRun(s);
    if 1 <= k && k + 1 < |s| && s[k] == '.' && IsLabelChar(s[k + 1]) then
      assert DomainPrefixAt(s, k, k + 2);
      true
    else
      assert forall k': nat, m: nat :: !DomainPrefixAt(s, k', m) by {
        forall k': nat, m: nat | DomainPrefixAt(s, k', m)
          ensures false
        {
          DomainDotEndsRun(s, k', m);
        }
      }
      false
  }

  /** `formatURL`: the first `http://…` or `https://…` in the resource, up to
      the first whitespace or `)`; failing that, the resource behind `https://`
      when it starts like a bare domain; otherwise nothing. Every link it
      returns carries a scheme. */
  function FormatUrl(resource: string): (r: Option<string>)
    ensures r.Some? ==> StartsWith(r.value, "http://") || StartsWith(r.value, "https://")
  {
    match FirstUrlFrom(resource, 0)
    case Some(q) =>
      var u := UrlMatchAt(resource, q);
      assert StartsWith(u, "http://") || StartsWith(u, "https://") by {
        var n := SchemeLength(resource[q..]);
        assert u[..n] == resource[q..][..n];
      }
      Some(u)
    case None =>
      if LooksLikeDomain(resource) then Some("https://" + resource) else None
  }

  /** The link follows the two patterns in order: the leftmost scheme-prefixed
      match wins; with none, a resource starting like a domain gets `https://`
      in front, and any other resource gets no link. */
  lemma FormatUrlFollowsPatterns(resource: string)
    ensures forall q: nat :: UrlAt(resource, q) && (forall q': nat :: q' < q ==> !UrlAt(resource, q')) ==>
              FormatUrl(resource) == Some(UrlMatchAt(resource, q))
    ensures (forall q: nat :: !UrlAt(resource, q)) ==>
              && (FormatUrl(resource).Some? <==> exists k, m :: DomainPrefixAt(resource, k, m))
              && (FormatUrl(resource).Some? ==> FormatUrl(resource).value == "https://" + resource)
  {
    match FirstUrlFrom(resource, 0)
    case Some(q) =>
      forall q': nat | UrlAt(resource, q') && (forall q'': nat :: q'' < q' ==> !UrlAt(resource, q''))
        ensures q' == q
      {
      }
    case None =>
  }

  /** A URL taken from inside the resource holds no whitespace and no `)`. */
  lemma MatchedUrlHasNoStops(resource: string, q: nat)
    requires UrlAt(resource, q)
    ensures forall k :: 0 <= k < |UrlMatchAt(resource, q)| ==> !IsUrlStop(UrlMatchAt(resource, q)[k])
  {
    var n := SchemeLength(resource[q..]);
    var u := UrlMatchAt(resource, q);
    var scheme := resource[q..][..n];
    assert scheme == "https://" || scheme == "http://";
    assert forall k :: 0 <= k < |scheme| ==> !IsUrlStop(scheme[k]);
    forall k | 0 <= k < |u| ensures !IsUrlStop(u[k]) {
      if k < n {
        assert u[k] == resource[q + k] == scheme[k];
      } else {
        assert u[k] == resource[q + n..][k - n];
      }
    }
  }

  /** The first index at which `pat` occurs in `s`, if any. */
  function FirstOccurrence(s: string, pat: string, from: nat): (r: Option<nat>)
    requires from <= |s|
    ensures r.Some? ==> from <= r.value && Text.InfixAt(pat, s, r.value)
    ensures r.Some? ==> forall i :: from <= i < r.value ==> !Text.InfixAt(pat, s, i)
    ensures r.None? ==> forall i :: from <= i ==> !Text.InfixAt(pat, s, i)
    decreases |s| - from
  {
    if Text.InfixAt(pat, s, from) then Some(from)
    else if from + |pat| >= |s| then None
    else FirstOccurrence(s, pat, from + 1)
  }

  /** `s.replace(pat, '')` with a string pattern: removes the first occurrence only. */
  function RemoveFirst(s: string, pat: string): (r: string)
    ensures FirstOccurrence(s, pat, 0).None? ==> r == s
    ensures FirstOccurrence(s, pat, 0).Some? ==>
              var i := FirstOccurrence(s, pat, 0).value; r == s[..i] + s[i + |pat|..]
  {
    match FirstOccurrence(s, pat, 0)
    case None => s
    case Some(i) => s[..i] + s[i + |pat|..]
  }

  /** The scheme is decided by the first eight characters. */
  lemma SchemeByPrefix(a: string, b: string)
    requires |a| >= 8 && |b| >= 8 && a[..8] == b[..8]
    ensures SchemeLength(a) == SchemeLength(b)
  {
    assert a[..7] == a[..8][..7] && b[..7] == b[..8][..7];
  }

  /** Two occurrences of the same text agree on its first `j` characters. */
  lemma SameTextAhead(s: string, u: string, i: nat, q: nat, j: nat)
    requires Text.InfixAt(u, s, i) && Text.InfixAt(u, s, q) && j <= |u|
    ensures s[i..][..j] == u[..j] == s[q..][..j]
  {
    assert s[i..][..j] == s[i..i + |u|][..j];
    assert s[q..][..j] == s[q..q + |u|][..j];
  }

  /** Wherever the text of a match occurs, the pattern matches too. */
  lemma CopyIsMatch(s: string, q: nat, i: nat)
    requires UrlAt(s, q) && Text.InfixAt(UrlMatchAt(s, q), s, i)
    ensures UrlAt(s, i)
  {
    var u := UrlMatchAt(s, q);
    var n := SchemeLength(s[q..]);
    assert s[q + n..][0] == s[q + n];
    assert |u| >= n + 1 >= 8;
    SameTextAhead(s, u, i, q, 8);
    SchemeByPrefix(s[i..], s[q..]);
    SameTextAhead(s, u, i, q, n + 1);
    assert s[i..][..n + 1][n] == s[i + n];
    assert s[q..][..n + 1][n] == s[q + n];
  }

  /** The matched URL is found again as text exactly where the pattern matched:
      an earlier copy of it would itself be an earlier match. */
  lemma {:induction false} MatchedUrlOccursFirst(s: string, q: nat)
    requires UrlAt(s, q) && forall q': nat :: q' < q ==> !UrlAt(s, q')
    ensures FirstOccurrence(s, UrlMatchAt(s, q), 0) == Some(q)
  {
    forall i: nat | i < q && Text.InfixAt(UrlMatchAt(s, q), s, i)
      ensures false
    {
      CopyIsMatch(s, q, i);
    }
  }

  /** With a scheme-prefixed URL, the label starts from the resource with
      exactly the matched URL cut out. */
  lemma RemoveFirstCutsMatchedUrl(s: string, q: nat)
    requires UrlAt(s, q) && forall q': nat :: q' < q ==> !UrlAt(s, q')
    ensures RemoveFirst(s, UrlMatchAt(s, q)) == s[..q] + s[q + |UrlMatchAt(s, q)|..]
  {
    MatchedUrlOccursFirst(s, q);
  }

  /** With a bare domain the link is longer than the resource, so nothing is
      cut and the label starts from the whole resource. */
  lemma RemoveFirstKeepsBareDomain(resource: string)
    ensures RemoveFirst(resource, "https://" + resource) == resource
  {
  }

  /** Characters that survive `.replace(/\s*[()]/g, '')` wherever they stand. */
  predicate IsKeptChar(c: char) {
    !Text.IsSpace(c) && c != '(' && c != ')'
  }

  predicate IsParen(c: char) {
    c == '(' || c == ')'
  }

  /** `.replace(/\s*[()]/g, '')`: every parenthesis goes, together with the
      whitespace run right before it; whitespace before anything else stays. */
  function StripParens(s: string): (r: string)
    ensures forall k :: 0 <= k < |r| ==> !IsParen(r[k])
    decreases |s|
  {
    if |s| == 0 then ""
    else if IsParen(s[0]) then StripParens(s[1..])
    else
      var n := Text.LeadingSpace(s);
      if 0 < n < |s| && IsParen(s[n]) then StripParens(s[n + 1..])
      else [s[0]] + StripParens(s[1..])
  }

  /** The character at the head of `s` is one the pattern removes: it starts
      a (possibly empty) whitespace run that ends at a parenthesis. */
  predicate Doomed(s: string)
    requires |s| > 0
  {
    var n := Text.LeadingSpace(s);
    n < |s| && IsParen(s[n])
  }

  /** The characters of `s` that are not doomed, in order: a position-by-
      position reading of what the global replacement keeps. */
  function Survivors(s: string): (r: string)
    ensures |r| <= |s|
  {
    if |s| == 0 then "" else (if Doomed(s) then "" else [s[0]]) + Survivors(s[1..])
  }

  /** A whitespace prefix of length `m` closed by a non-space (or the end) is
      the leading whitespace. */
  lemma {:induction false} LeadingSpaceIs(t: string, m: nat)
    requires m <= |t|
    requires forall k :: 0 <= k < m ==> Text.IsSpace(t[k])
    requires m < |t| ==> !Text.IsSpace(t[m])
    ensures Text.LeadingSpace(t) == m
    decreases m
  {
    if m > 0 {
      assert Text.IsSpace(t[0]);
      LeadingSpaceIs(t[1..], m - 1);
    }
  }

  /** Every character of a whitespace run that ends at a parenthesis is
      doomed, so none of them survives. */
  lemma {:induction false} DoomedRunVanishes(s: string, n: nat, j: nat)
    requires n == Text.LeadingSpace(s) && n < |s| && IsParen(s[n])
    requires j <= n
    ensures Survivors(s[j..]) == Survivors(s[n + 1..])
    decreases n - j
  {
    var t := s[j..];
    LeadingSpaceIs(t, n - j);
    assert t[n - j] == s[n];
    assert Doomed(t);
    assert t[1..] == s[j + 1..];
    if j < n {
      DoomedRunVanishes(s, n, j + 1);
    }
  }

  /** The scanning replacement removes exactly the doomed characters. */
  lemma {:induction false} StripParensExact(s: string)
    ensures StripParens(s) == Survivors(s)
    decreases |s|
  {
    if |s| > 0 {
      var n := Text.LeadingSpace(s);
      if IsParen(s[0]) {
        assert n == 0 && Doomed(s);
        StripParensExact(s[1..]);
      } else if 0 < n < |s| && IsParen(s[n]) {
        DoomedRunVanishes(s, n, 0);
        StripParensExact(s[n + 1..]);
      } else {
        assert !Doomed(s);
        StripParensExact(s[1..]);
      }
    }
  }

  /** Text without parentheses is left as it is. */
  lemma {:induction false} StripParensKeepsPlainText(s: string)
    requires NoParens(s)
    ensures StripParens(s) == s
    decreases |s|
  {
    if |s| > 0 {
      assert NoParens(s[1..]) by {
        assert forall k :: 0 <= k < |s| - 1 ==> s[1..][k] == s[k + 1];
      }
      StripParensKeepsPlainText(s[1..]);
      assert s == [s[0]] + s[1..];
    }
  }

  /** Stripping parentheses removes only parentheses and whitespace: every
      other character survives, in order. */
  lemma {:induction false} StripParensKeepsText(s: string)
    ensures Seqs.Filter(StripParens(s), IsKeptChar) == Seqs.Filter(s, IsKeptChar)
    decreases |s|
  {
    if |s| == 0 {
    } else if IsParen(s[0]) {
      StripParensKeepsText(s[1..]);
      assert s == [s[0]] + s[1..];
      Seqs.FilterAppend([s[0]], s[1..], IsKeptChar);
    } else {
      var n := Text.LeadingSpace(s);
      if 0 < n < |s| && IsParen(s[n]) {
        StripParensKeepsText(s[n + 1..]);
        assert s == s[..n + 1] + s[n + 1..];
        Seqs.FilterAppend(s[..n + 1], s[n + 1..], IsKeptChar);
        ParenRunVanishes(s, n);
      } else {
        StripParensKeepsText(s[1..]);
        assert s == [s[0]] + s[1..];
        Seqs.FilterAppend([s[0]], s[1..], IsKeptChar);
        Seqs.FilterAppend([s[0]], StripParens(s[1..]), IsKeptChar);
      }
    }
  }

  predicate NoParens(s: string) {
    forall k :: 0 <= k < |s| ==> !IsParen(s[k])
  }

  /** Whitespace alone leaves nothing to keep. */
  lemma {:induction false} SpacesVanish(s: string)
    requires Text.AllSpace(s)
    ensures Seqs.Filter(s, IsKeptChar) == []
  {
    if |s| > 0 {
      assert Text.IsSpace(s[0]);
      SpacesVanish(s[1..]);
    }
  }

  /** A parenthesis alone filters to nothing. */
  lemma ParenVanishes(c: char)
    requires IsParen(c)
    ensures Seqs.Filter([c], IsKeptChar) == []
  {
    assert !IsKeptChar(c);
    assert [c][1..] == [];
  }

  /** A whitespace run closed by a parenthesis holds nothing that is kept. */
  lemma ParenRunVanishes(s: string, n: nat)
    requires n == Text.LeadingSpace(s) && n < |s| && IsParen(s[n])
    ensures Seqs.Filter(s[..n + 1], IsKeptChar) == []
  {
    var head := s[..n];
    assert Text.AllSpace(head) by {
      forall k | 0 <= k < n ensures Text.IsSpace(head[k]) {
        assert head[k] == s[k];
      }
    }
    SpacesVanish(head);
    ParenVanishes(s[n]);
    assert s[..n + 1] == head + [s[n]];
    Seqs.FilterAppend(head, [s[n]], IsKeptChar);
  }

  /** Filtering a string cut in three is filtering the three pieces. */
  lemma FilterThree(a: string, b: string, c: string)
    ensures Seqs.Filter(a + b + c, IsKeptChar)
            == Seqs.Filter(a, IsKeptChar) + Seqs.Filter(b, IsKeptChar) + Seqs.Filter(c, IsKeptChar)
  {
    Seqs.FilterAppend(a + b, c, IsKeptChar);
    Seqs.FilterAppend(a, b, IsKeptChar);
  }

  /** Whitespace around a text adds nothing that is kept. */
  lemma FilterBetweenSpaces(head: string, r: string, tail: string)
    requires Text.AllSpace(head) && Text.AllSpace(tail)
    ensures Seqs.Filter(head + r + tail, IsKeptChar) == Seqs.Filter(r, IsKeptChar)
  {
    SpacesVanish(head);
    SpacesVanish(tail);
    FilterThree(head, r, tail);
    assert [] + Seqs.Filter(r, IsKeptChar) + [] == Seqs.Filter(r, IsKeptChar);
  }

  /** Trimming removes whitespace only: every other character stays, in order. */
  lemma TrimKeepsText(s: string)
    ensures Seqs.Filter(Text.Trim(s), IsKeptChar) == Seqs.Filter(s, IsKeptChar)
  {
    Text.TrimSplit(s);
    var lo := Text.LeadingSpace(s);
    var r := Text.Trim(s);
    FilterBetweenSpaces(s[..lo], r, s[lo + |r|..]);
  }

  /** Trimming cannot bring in a parenthesis. */
  lemma TrimKeepsNoParens(s: string)
    requires NoParens(s)
    ensures NoParens(Text.Trim(s))
  {
    var r := Text.Trim(s);
    var lo := Text.LeadingSpace(s);
    assert forall k :: 0 <= k < |r| ==> r[k] == s[lo + k];
  }

  /** The link text: the resource without the URL, without parentheses (and
      the whitespace before them), trimmed; the URL itself when nothing is left.
      It is never empty. */
  function LinkLabel(resource: string, url: string): (caption: string)
    requires url != ""
    ensures caption != ""
    ensures caption == url || (NoParens(caption) && !Text.IsSpace(caption[0]) && !Text.IsSpace(caption[|caption| - 1]))
  {
    var stripped := StripParens(RemoveFirst(resource, url));
    var t := Text.Trim(stripped);
    if t == "" then url
    else
      assert NoParens(t) by {
        TrimKeepsNoParens(stripped);
      }
      t
  }

  /** The caption is what the pattern leaves of the resource without its URL,
      trimmed, whenever that is not blank, and the URL otherwise. */
  lemma LinkLabelExact(resource: string, url: string)
    requires url != ""
    ensures var kept := Text.Trim(Survivors(RemoveFirst(resource, url)));
            && (kept != "" ==> LinkLabel(resource, url) == kept)
            && (kept == "" ==> LinkLabel(resource, url) == url)
  {
    StripParensExact(RemoveFirst(resource, url));
  }

  /** A non-empty text without parentheses that starts with a non-space
      character keeps at least that character. */
  lemma TrimmedKeepsSomething(t: string)
    requires t != "" && !Text.IsSpace(t[0]) && NoParens(t)
    ensures Seqs.Filter(t, IsKeptChar) != []
  {
    assert IsKeptChar(t[0]);
    assert t == [t[0]] + t[1..];
    Seqs.FilterAppend([t[0]], t[1..], IsKeptChar);
    assert [t[0]][1..] == [];
  }

  /** Whenever the resource holds text besides the URL, parentheses and
      whitespace, that text is the caption's, character for character; the
      URL stands in only when there is none. */
  lemma LinkLabelKeepsText(resource: string, url: string)
    requires url != ""
    ensures var rest := Seqs.Filter(RemoveFirst(resource, url), IsKeptChar);
            && (rest != [] ==> Seqs.Filter(LinkLabel(resource, url), IsKeptChar) == rest)
            && (rest == [] ==> LinkLabel(resource, url) == url)
  {
    var stripped := StripParens(RemoveFirst(resource, url));
    StripParensKeepsText(RemoveFirst(resource, url));
    TrimKeepsText(stripped);
    TrimKeepsNoParens(stripped);
    var t := Text.Trim(stripped);
    if t != "" {
      TrimmedKeepsSomething(t);
    }
  }

  datatype Link = Link(href: string, caption: string)

  /** A rendered link: an `http(s)://` target and a caption to click. */
  predicate Renderable(link: Link) {
    (StartsWith(link.href, "http://") || StartsWith(link.href, "https://")) && link.caption != ""
  }

  /** The link rendered for one resource, if it yields a URL. */
  function LinkFor(resource: string): (link: Option<Link>)
    ensures link.Some? <==> FormatUrl(resource).Some?
    ensures link.Some? ==> Renderable(link.value) && link.value.href == FormatUrl(resource).value
    ensures link.Some? ==> link.value.caption == LinkLabel(resource, FormatUrl(resource).value)
  {
    match FormatUrl(resource)
    case None => None
    case Some(url) => Some(Link(url, LinkLabel(resource, url)))
  }

  /** `topic.resources.map(...)`: a link per resource that yields a URL, in
      resource order; a resource without one is not rendered. */
  function ResourceLinks(resources: seq<string>): (links: seq<Link>)
    ensures |links| <= |resources|
    ensures forall l :: l in links <==> exists i :: 0 <= i < |resources| && LinkFor(resources[i]) == Some(l)
    ensures forall l :: l in links ==> Renderable(l)
  {
    Optional.SomesMembers(resources, LinkFor);
    Optional.Somes(resources, LinkFor)
  }

  /** The links follow the resources in order: a single resource gives its
      link when it has one and nothing otherwise, and the links of a
      concatenation are the links of its parts, one after the other. */
  lemma ResourceLinksInOrder(a: seq<string>, b: seq<string>)
    ensures ResourceLinks(a + b) == ResourceLinks(a) + ResourceLinks(b)
    ensures forall r :: ResourceLinks([r]) == if LinkFor(r).Some? then [LinkFor(r).value] else []
  {
    Optional.SomesSplit(a, b, LinkFor);
    forall r: string {
      Optional.SomesSingle(r, LinkFor);
    }
  }

  /** Exactly one link per resource when every resource yields a URL, and
      none when no resource does. */
  lemma ResourceLinksCount(resources: seq<string>)
    ensures (forall i :: 0 <= i < |resources| ==> FormatUrl(resources[i]).Some?) ==> |ResourceLinks(resources)| == |resources|
    ensures (forall i :: 0 <= i < |resources| ==> FormatUrl(resources[i]).None?) ==> ResourceLinks(resources) == []
  {
    assert forall i :: 0 <= i < |resources| ==> (LinkFor(resources[i]).Some? <==> FormatUrl(resources[i]).Some?);
  }

  // ---------------------------------------------------------------------------
  // Completion toggle
  // ---------------------------------------------------------------------------

  /** `handleTopicToggle`: the completion flag the request asks for. */
  function ToggleRequest(t: Topic): (completed: bool)
    ensures completed != t.completed
  {
    !t.completed
  }

  /** Clicking a topic twice (the second click reading the roadmap the first
      update returned) first flips its flag, stamping a completion time exactly
      when it becomes completed, and then restores the original flag. */
  lemma ToggleTwiceRestores(s: RoadmapRoutes.Store, caller: UserId, rid: RoadmapId, i: nat, k: nat, now1: Time, now2: Time)
    requires RoadmapRoutes.OwnedBy(s, caller, rid)
    requires i < |s.roadmaps[rid].stages| && k < |s.roadmaps[rid].stages[i].topics|
    ensures var t := s.roadmaps[rid].stages[i].topics[k];
            var (s1, r1) := RoadmapRoutes.PatchTopic(s, caller, rid, t.id, ToggleRequest(t), now1);
            && r1.Ok?
            && i < |r1.value.stages| && k < |r1.value.stages[i].topics|
            && r1.value.stages[i].topics[k].completed == !t.completed
            && (r1.value.stages[i].topics[k].completedAt.Some? <==> !t.completed)
            && var t1 := r1.value.stages[i].topics[k];
               var (s2, r2) := RoadmapRoutes.PatchTopic(s1, caller, rid, t1.id, ToggleRequest(t1), now2);
               && r2.Ok?
               && i < |r2.value.stages| && k < |r2.value.stages[i].topics|
               && r2.value.stages[i].topics[k].completed == t.completed
               && (r2.value.stages[i].topics[k].completedAt.Some? <==> t.completed)
  {
    var t := s.roadmaps[rid].stages[i].topics[k];
    RoadmapRoutes.PatchTopicEffect(s, caller, rid, t.id, ToggleRequest(t), now1);
    var (s1, r1) := RoadmapRoutes.PatchTopic(s, caller, rid, t.id, ToggleRequest(t), now1);
    var t1 := r1.value.stages[i].topics[k];
    assert RoadmapRoutes.HasTopic(s1.roadmaps[rid].stages, t1.id);
    RoadmapRoutes.PatchTopicEffect(s1, caller, rid, t1.id, ToggleRequest(t1), now2);
  }
}
