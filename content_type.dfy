/** The constant content data the generation flow validates against: the nine tones and
    the four-level hierarchy format -> objective -> audience -> tones. A Python dict literal
    is kept as its ordered list of entries, so key order (which the question flow shows to
    the user) is part of the model. */
module ContentType {
  import opened Wrappers

  /** A dict literal: its entries in source order. */
  type Entries<V> = seq<(string, V)>

  /** `list(d.keys())`. */
  function Keys<V>(t: Entries<V>): (r: seq<string>)
    ensures |r| == |t|
    ensures forall i :: 0 <= i < |t| ==> r[i] == t[i].0
  {
    if t == [] then [] else [t[0].0] + Keys(t[1..])
  }

  /** No key is written twice, so the literal means what it lists. */
  predicate DistinctKeys<V>(t: Entries<V>) {
    forall i, j :: 0 <= i < j < |t| ==> t[i].0 != t[j].0
  }

  /** `d.get(key)`: the value stored under the key, `None` when it is absent. */
  function Get<V>(t: Entries<V>, key: string): (r: Option<V>)
    ensures r.None? <==> key !in Keys(t)
    ensures r.Some? ==> (key, r.value) in t
  {
    if t == [] then None
    else if t[0].0 == key then Some(t[0].1)
    else Get(t[1..], key)
  }

  /** With distinct keys every listed entry is what a lookup of its key finds. */
  lemma {:induction false} GetAt<V>(t: Entries<V>, i: nat)
    requires DistinctKeys(t) && i < |t|
    ensures Get(t, t[i].0) == Some(t[i].1)
  {
    if i > 0 {
      assert t[0].0 != t[i].0;
      assert DistinctKeys(t[1..]) by {
        forall a, b | 0 <= a < b < |t| - 1 ensures t[1..][a].0 != t[1..][b].0 {
          assert t[1..][a] == t[a + 1] && t[1..][b] == t[b + 1];
        }
      }
      GetAt(t[1..], i - 1);
      assert t[1..][i - 1] == t[i];
    }
  }

  /** `TONE_OPTIONS`. */
  const ToneOptions: seq<string> := [
    "Non-technical and Accessible",
    "Formal and Objective",
    "Precise and Data-Driven",
    "Impartial and Compliant",
    "Concise and Analytical",
    "Professional and Scientific",
    "Narrative and Insightful",
    "Clinically Detailed but Relatable",
    "Evidence-Based and Persuasive"
  ]

  type Audiences = Entries<seq<string>>
  type Objectives = Entries<Audiences>
  type Hierarchy = Entries<Objectives>

  /** `CONTENT_HIERARCHY`: every audience maps to the same tone list. */
  const ContentHierarchy: Hierarchy := [
    ("Clinical Trial Report", TrialReportObjectives),
    ("Clinical Summaries", SummaryObjectives),
    ("Patient Case Studies", CaseStudyObjectives),
    ("Plain Language Summaries", PlainLanguageObjectives)
  ]

  const TrialReportObjectives: Objectives := [
    ("Promotional - Commercial", [
      ("Regulatory Authorities (e.g., FDA, EMA)", ToneOptions),
      ("Clinical Research Organizations (CROs)", ToneOptions),
      ("Medical Writers, Pharmacovigilance & Regulatory Affairs Teams", ToneOptions),
      ("Sponsors/Pharma Companies", ToneOptions)]),
    ("Non promotional - Commercial", [
      ("Regulatory Authorities (e.g., FDA, EMA)", ToneOptions),
      ("Clinical Research Organizations (CROs)", ToneOptions)]),
    ("Promotional - Scientific", [
      ("Sponsors/Pharma Companies", ToneOptions),
      ("Medical Writers, Pharmacovigilance & Regulatory Affairs Teams", ToneOptions)]),
    ("Non promotional - Scientific", [
      ("Regulatory Authorities (e.g., FDA, EMA)", ToneOptions),
      ("CROs", ToneOptions)])
  ]

  const SummaryObjectives: Objectives := [
    ("Non promotional - Scientific", [
      ("Regulatory Authorities (e.g., FDA, EMA)", ToneOptions),
      ("Medical Affairs, Scientific Teams & MSLs", ToneOptions),
      ("HTA Bodies (Health Technology Assessment)", ToneOptions)])
  ]

  const CaseStudyObjectives: Objectives := [
    ("Promotional - Scientific", [
      ("Healthcare Professionals (HCPs)", ToneOptions),
      ("Sales Representatives", ToneOptions),
      ("Conference Attendees & Journal Readers", ToneOptions)])
  ]

  const PlainLanguageObjectives: Objectives := [
    ("Non promotional - Scientific", [
      ("Patients & Caregivers", ToneOptions),
      ("Patient Advocacy Groups", ToneOptions),
      ("General Public & Media", ToneOptions),
      ("Ethics Committees", ToneOptions)])
  ]

  /** The four formats, in the order the hierarchy lists them. */
  const Formats: seq<string> := [
    "Clinical Trial Report", "Clinical Summaries", "Patient Case Studies", "Plain Language Summaries"
  ]

  /** There are exactly nine tones and no tone is listed twice. */
  lemma ToneOptionsDistinct()
    ensures |ToneOptions| == 9
    ensures forall i, j :: 0 <= i < j < |ToneOptions| ==> ToneOptions[i] != ToneOptions[j]
  {
  }

  /** The hierarchy has exactly the four formats, in that order. */
  lemma HierarchyFormats()
    ensures Keys(ContentHierarchy) == Formats
  {
  }

  /** No key is the empty string. */
  predicate NonEmptyKeys<V>(t: Entries<V>) {
    forall i :: 0 <= i < |t| ==> t[i].0 != ""
  }

  /** A key a lookup finds is one of the listed keys, so it is not empty. */
  lemma GetNonEmpty<V>(t: Entries<V>, key: string)
    requires NonEmptyKeys(t) && Get(t, key).Some?
    ensures key != ""
  {
    var i :| 0 <= i < |t| && t[i] == (key, Get(t, key).value);
  }

  /** No key is empty or repeated among the objectives of a format or the audiences of an
      objective. */
  predicate ObjectivesWellFormed(objectives: Objectives) {
    && DistinctKeys(objectives) && NonEmptyKeys(objectives)
    && (forall j :: 0 <= j < |objectives| ==>
          DistinctKeys(objectives[j].1) && NonEmptyKeys(objectives[j].1))
  }

  /** No key is empty or repeated at any level of a hierarchy. */
  predicate WellFormed(h: Hierarchy) {
    && DistinctKeys(h) && NonEmptyKeys(h)
    && (forall i :: 0 <= i < |h| ==> ObjectivesWellFormed(h[i].1))
  }

  lemma TrialReportWellFormed()
    ensures ObjectivesWellFormed(TrialReportObjectives)
  {
  }

  lemma OtherFormatsWellFormed()
    ensures ObjectivesWellFormed(SummaryObjectives)
    ensures ObjectivesWellFormed(CaseStudyObjectives)
    ensures ObjectivesWellFormed(PlainLanguageObjectives)
  {
  }

  lemma HierarchyWellFormed()
    ensures WellFormed(ContentHierarchy)
  {
    TrialReportWellFormed();
    OtherFormatsWellFormed();
    var h := ContentHierarchy;
    assert forall i :: 0 <= i < |h| ==> ObjectivesWellFormed(h[i].1);
  }

  /** The objectives a format lookup finds have no empty or repeated key at either level. */
  lemma ObjectivesOf(f: string)
    requires Get(ContentHierarchy, f).Some?
    ensures ObjectivesWellFormed(Get(ContentHierarchy, f).value)
  {
    HierarchyWellFormed();
    var h := ContentHierarchy;
    var i :| 0 <= i < |h| && h[i] == (f, Get(h, f).value);
  }

  /** Clinical Trial Report offers four objectives; every other format offers one. */
  lemma ObjectiveCounts(f: string)
    requires f in Formats
    ensures Get(ContentHierarchy, f).Some?
    ensures |Get(ContentHierarchy, f).value| == if f == "Clinical Trial Report" then 4 else 1
  {
    var h := ContentHierarchy;
    HierarchyFormats();
    HierarchyWellFormed();
    var i :| 0 <= i < 4 && Formats[i] == f;
    GetAt(h, i);
  }

  /** `h[f][o][a]`, or `None` where one of the keys is missing. */
  function Lookup(h: Hierarchy, f: string, o: string, a: string): Option<seq<string>>
  {
    match Get(h, f)
    case None => None
    case Some(objectives) =>
      match Get(objectives, o)
      case None => None
      case Some(audiences) => Get(audiences, a)
  }

  /** `CONTENT_HIERARCHY[f][o][a]`, or `None` where one of the keys is missing. */
  function Tones(f: string, o: string, a: string): Option<seq<string>>
  {
    Lookup(ContentHierarchy, f, o, a)
  }

  /** `h` lists a path `f -> o -> a` whose tones include `t`. */
  predicate OnPathIn(h: Hierarchy, f: string, o: string, a: string, t: string) {
    exists i, j, k :: 0 <= i < |h| && 0 <= j < |h[i].1| && 0 <= k < |h[i].1[j].1|
      && h[i].0 == f && h[i].1[j].0 == o && h[i].1[j].1[k].0 == a && t in h[i].1[j].1[k].1
  }

  /** The content hierarchy lists a path `f -> o -> a` whose tones include `t`. */
  predicate OnPath(f: string, o: string, a: string, t: string) {
    OnPathIn(ContentHierarchy, f, o, a, t)
  }

  /** Every audience of `h` maps to `tones`. */
  predicate LeavesAre(h: Hierarchy, tones: seq<string>) {
    forall i, j, k :: 0 <= i < |h| && 0 <= j < |h[i].1| && 0 <= k < |h[i].1[j].1| ==>
      h[i].1[j].1[k].1 == tones
  }

  /** In a hierarchy whose leaves are all `tones`, every lookup that succeeds finds them. */
  lemma LookupLeaf(h: Hierarchy, tones: seq<string>, f: string, o: string, a: string)
    requires LeavesAre(h, tones)
    ensures Lookup(h, f, o, a).Some? ==> Lookup(h, f, o, a).value == tones
  {
    if Lookup(h, f, o, a).Some? {
      var objectives := Get(h, f).value;
      var audiences := Get(objectives, o).value;
      var i :| 0 <= i < |h| && h[i] == (f, objectives);
      var j :| 0 <= j < |h[i].1| && h[i].1[j] == (o, audiences);
      var k :| 0 <= k < |h[i].1[j].1| && h[i].1[j].1[k] == (a, Lookup(h, f, o, a).value);
    }
  }

  /** Every format -> objective -> audience path ends in the same tone list. */
  lemma EveryPathEndsInTones(f: string, o: string, a: string)
    ensures Tones(f, o, a).Some? ==> Tones(f, o, a).value == ToneOptions
  {
    assert LeavesAre(ContentHierarchy, ToneOptions);
    LookupLeaf(ContentHierarchy, ToneOptions, f, o, a);
  }

  /** A successful chained lookup follows a path that `h` lists. */
  lemma LookupListed(h: Hierarchy, f: string, o: string, a: string, t: string)
    requires Lookup(h, f, o, a).Some? && t in Lookup(h, f, o, a).value
    ensures OnPathIn(h, f, o, a, t)
  {
    var objectives := Get(h, f).value;
    var audiences := Get(objectives, o).value;
    var i :| 0 <= i < |h| && h[i] == (f, objectives);
    var j :| 0 <= j < |h[i].1| && h[i].1[j] == (o, audiences);
    var k :| 0 <= k < |h[i].1[j].1| && h[i].1[j].1[k] == (a, Lookup(h, f, o, a).value);
    assert h[i].1[j].1[k].0 == a;
  }

  /** In a hierarchy without repeated keys, every listed path is found by the lookup. */
  lemma ListedLookup(h: Hierarchy, f: string, o: string, a: string, t: string)
    requires WellFormed(h) && OnPathIn(h, f, o, a, t)
    ensures Lookup(h, f, o, a).Some? && t in Lookup(h, f, o, a).value
  {
    var i, j, k :| 0 <= i < |h| && 0 <= j < |h[i].1| && 0 <= k < |h[i].1[j].1|
      && h[i].0 == f && h[i].1[j].0 == o && h[i].1[j].1[k].0 == a && t in h[i].1[j].1[k].1;
    GetAt(h, i);
    GetAt(h[i].1, j);
    GetAt(h[i].1[j].1, k);
  }

  /** The chained lookup in the content hierarchy finds `t` exactly on a listed path. */
  lemma TonesOnPath(f: string, o: string, a: string, t: string)
    ensures (Tones(f, o, a).Some? && t in Tones(f, o, a).value) <==> OnPath(f, o, a, t)
  {
    HierarchyWellFormed();
    if Tones(f, o, a).Some? && t in Tones(f, o, a).value {
      LookupListed(ContentHierarchy, f, o, a, t);
    }
    if OnPath(f, o, a, t) {
      ListedLookup(ContentHierarchy, f, o, a, t);
    }
  }
}
