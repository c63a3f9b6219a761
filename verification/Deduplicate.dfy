/** Candidate deduplication: identity keys, clustering of one key group by title and apply
    route, merging, and the passes of the pipeline, as functions on candidate values.
    Absent, null and empty text fields are all the empty string: every branch tests only
    truthiness. Text normalisation is a parameter, `Policy`. */
module Deduplicate {
  import opened Common
  import opened Grouping

  /** The text rules the pipeline calls: `text` and `title` normalise a non-empty string,
      `places` splits one location into its normal parts, `space` is whitespace. */
  datatype Policy = Policy(text: string -> string,
                           title: string -> string,
                           places: string -> seq<string>,
                           space: char -> bool)

  datatype Ref = Ref(url: string, contentHash: string, evidenceType: string, detail: string)

  datatype Candidate = Candidate(
    company: string, title: string, applyUrl: string,
    responsibilities: string, requirements: string,
    description: string, department: string, deadline: string,
    locations: seq<string>, refs: seq<Ref>, recruitment: seq<string>,
    industries: seq<string>, warnings: seq<string>)

  /** The body hash is modelled by the two normalised bodies it is computed from. */
  datatype Key =
    | JdKey(company: string, duties: string, demands: string, places: set<string>, recruit: string)
    | TitleKey(company: string, title: string, places: set<string>, recruit: string)

  // ---------------------------------------------------------------- text rules

  function NormText(p: Policy, s: string): string {
    if s == "" then "" else p.text(s)
  }

  function NormTitle(p: Policy, s: string): string {
    if s == "" then "" else p.title(s)
  }

  function Strip(p: Policy, s: string): string {
    if s == "" then ""
    else if p.space(s[0]) then Strip(p, s[1..])
    else if p.space(Last(s)) then Strip(p, Init(s))
    else s
  }

  predicate Within(t: string, u: string) {
    t <= u || (u != "" && Within(t, u[1..]))
  }

  predicate HasBody(p: Policy, c: Candidate) {
    Strip(p, c.responsibilities) != "" || Strip(p, c.requirements) != ""
  }

  function Route(p: Policy, c: Candidate): string {
    Strip(p, c.applyUrl)
  }

  function TitleOf(p: Policy, c: Candidate): string {
    NormTitle(p, c.title)
  }

  // ---------------------------------------------------------------- identity

  /** The parts of all locations. The program joins them sorted with '|', which no part contains. */
  function PlaceSet(p: Policy, locations: seq<string>): set<string> {
    set l, part | l in locations && part in p.places(l) :: part
  }

  function Recruit(p: Policy, c: Candidate): string {
    if c.recruitment == [] || c.recruitment[0] == "" then "" else NormText(p, c.recruitment[0])
  }

  function IdentityKey(p: Policy, c: Candidate): Key {
    var company := NormText(p, c.company);
    if HasBody(p, c) then
      JdKey(company, NormText(p, c.responsibilities), NormText(p, c.requirements),
            PlaceSet(p, c.locations), Recruit(p, c))
    else
      TitleKey(company, TitleOf(p, c), PlaceSet(p, c.locations), Recruit(p, c))
  }

  // ---------------------------------------------------------------- clustering

  predicate TitlesMatch(t: string, ct: string) {
    t != "" && ct != "" && (t == ct || Within(t, ct) || Within(ct, t))
  }

  datatype Cluster = Cluster(titles: set<string>, members: seq<Candidate>)

  function Routes(p: Policy, members: seq<Candidate>): set<string> {
    set m | m in members && Route(p, m) != "" :: Route(p, m)
  }

  predicate RoutesCompatible(p: Policy, routes: set<string>, url: string) {
    routes == {} || url == "" || url in routes
  }

  predicate Fits(p: Policy, m: Candidate, c: Cluster) {
    && RoutesCompatible(p, Routes(p, c.members), Route(p, m))
    && exists ct :: ct in c.titles && TitlesMatch(TitleOf(p, m), ct)
  }

  /** The index of the first cluster that `m` fits, or their number. */
  function FirstFit(p: Policy, clusters: seq<Cluster>, m: Candidate): (i: nat)
    ensures i <= |clusters|
    ensures forall j :: 0 <= j < i ==> !Fits(p, m, clusters[j])
    ensures i < |clusters| ==> Fits(p, m, clusters[i])
  {
    if clusters == [] then 0
    else
      var i := FirstFit(p, Init(clusters), m);
      if i < |clusters| - 1 || Fits(p, m, Last(clusters)) then i else |clusters|
  }

  function Joined(p: Policy, c: Cluster, m: Candidate): Cluster {
    Cluster(c.titles + {TitleOf(p, m)}, c.members + [m])
  }

  function PlaceIn(p: Policy, clusters: seq<Cluster>, m: Candidate): seq<Cluster> {
    var i := FirstFit(p, clusters, m);
    if i < |clusters| then clusters[i := Joined(p, clusters[i], m)]
    else clusters + [Cluster({TitleOf(p, m)}, [m])]
  }

  function Clusters(p: Policy, members: seq<Candidate>): seq<Cluster> {
    if members == [] then [] else PlaceIn(p, Clusters(p, Init(members)), Last(members))
  }

  // ---------------------------------------------------------------- merging

  function RefKey(r: Ref): (string, string, string) {
    (r.url, r.contentHash, r.evidenceType)
  }

  function TextKey(s: string): string {
    s
  }

  function Newer(held: string, incoming: string): string {
    if incoming != "" then incoming else held
  }

  function Filled(held: string, incoming: string): string {
    if held != "" then held else incoming
  }

  ghost function Merge(dst: Candidate, src: Candidate): Candidate {
    Candidate(
      Filled(dst.company, src.company), dst.title, Filled(dst.applyUrl, src.applyUrl),
      Newer(dst.responsibilities, src.responsibilities), Newer(dst.requirements, src.requirements),
      Newer(dst.description, src.description), Newer(dst.department, src.department),
      Newer(dst.deadline, src.deadline),
      FirstByKey(dst.locations + src.locations, TextKey),
      FirstByKey(dst.refs + src.refs, RefKey),
      FirstByKey(dst.recruitment + src.recruitment, TextKey),
      FirstByKey(dst.industries + src.industries, TextKey),
      FirstByKey(dst.warnings + src.warnings, TextKey))
  }

  /** Merges every later member into the first. */
  ghost function MergeAll(members: seq<Candidate>): Candidate
    requires members != []
  {
    if |members| == 1 then members[0] else Merge(MergeAll(Init(members)), Last(members))
  }

  // ---------------------------------------------------------------- pass 1

  /** The identity key as a grouping key. */
  function KeyBy(p: Policy): Candidate -> Key {
    c => IdentityKey(p, c)
  }

  /** The groups that one key's members are merged in. */
  function Groups(p: Policy, k: Key, members: seq<Candidate>): seq<seq<Candidate>> {
    if k.JdKey? && |members| > 1 then
      var cs := Clusters(p, members);
      seq(|cs|, i requires 0 <= i < |cs| => cs[i].members)
    else [members]
  }

  ghost function MergeEach(groups: seq<seq<Candidate>>): seq<Candidate>
    requires forall i :: 0 <= i < |groups| ==> groups[i] != []
  {
    seq(|groups|, i requires 0 <= i < |groups| => MergeAll(groups[i]))
  }

  lemma {:induction false} ClustersNonEmpty(p: Policy, members: seq<Candidate>)
    ensures forall i :: 0 <= i < |Clusters(p, members)| ==> Clusters(p, members)[i].members != []
    ensures members != [] ==> Clusters(p, members) != []
  {
    if members == [] {
    } else {
      ClustersNonEmpty(p, Init(members));
    }
  }

  ghost function Output(p: Policy, k: Key, members: seq<Candidate>): seq<Candidate> {
    if members == [] then []
    else
      ClustersNonEmpty(p, members);
      MergeEach(Groups(p, k, members))
  }

  ghost function OutputOf(p: Policy, xs: seq<Candidate>): Key -> seq<Candidate> {
    k => Output(p, k, Members(xs, KeyBy(p), k))
  }

  /** Pass 1: group by identity key, cluster each group, merge each cluster. */
  ghost function Pass1(p: Policy, xs: seq<Candidate>): seq<Candidate> {
    Lay(Keys(xs, KeyBy(p)), OutputOf(p, xs))
  }

  // ---------------------------------------------------------------- pass 2

  function JdTitles(p: Policy, xs: seq<Candidate>): set<string> {
    set c | c in xs && HasBody(p, c) && TitleOf(p, c) != "" :: TitleOf(p, c)
  }

  predicate Echo(p: Policy, titles: set<string>, c: Candidate) {
    !HasBody(p, c) && TitleOf(p, c) != "" && TitleOf(p, c) in titles
  }

  function NotEcho(p: Policy, titles: set<string>): Candidate -> bool {
    c => !Echo(p, titles, c)
  }

  /** Pass 2: drop title-only candidates whose title some full candidate has. */
  ghost function Pass2(p: Policy, xs: seq<Candidate>): seq<Candidate> {
    Kept(xs, NotEcho(p, JdTitles(p, xs)))
  }

  // ---------------------------------------------------------------- shared list-page routes

  const CLEARED_WARNING := "SHARED_LISTING_URL_CLEARED"

  /** A route is shared when candidates with two different titles carry it. */
  ghost predicate SharedRoute(p: Policy, xs: seq<Candidate>, url: string) {
    && url != ""
    && exists c, d :: c in xs && d in xs && Route(p, c) == url && Route(p, d) == url
                      && TitleOf(p, c) != "" && TitleOf(p, d) != "" && TitleOf(p, c) != TitleOf(p, d)
  }

  function Cleared(c: Candidate): Candidate {
    c.(applyUrl := "",
       warnings := if CLEARED_WARNING in c.warnings then c.warnings else c.warnings + [CLEARED_WARNING])
  }

  ghost function ClearShared(p: Policy, xs: seq<Candidate>): seq<Candidate> {
    seq(|xs|, i requires 0 <= i < |xs| => if SharedRoute(p, xs, Route(p, xs[i])) then Cleared(xs[i]) else xs[i])
  }

  /** The deduplicating part of the pipeline. */
  ghost function Process(p: Policy, xs: seq<Candidate>): seq<Candidate> {
    ClearShared(p, Pass2(p, Pass1(p, xs)))
  }
}
