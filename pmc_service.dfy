/** Article acquisition (services/pmcService.ts): id normalisation, the
    choice of a specialty and of one search result, tag stripping, and the
    offline fallback record. The HTTP exchange is a parameter: `Reply` is
    what the search service answered, or its failure; `Math.random()` is a
    real `u` with `0 <= u < 1`. */
module PmcService {
  import opened Wrappers
  import opened Types
  import opened Text

  /** Whitespace and line terminators removed by `String.prototype.trim`. */
  predicate IsJsWhitespace(c: char) {
    ('\U{9}' <= c <= '\U{D}') || c == ' ' || c == '\U{A0}' || c == '\U{1680}' ||
    ('\U{2000}' <= c <= '\U{200A}') || c == '\U{2028}' || c == '\U{2029}' ||
    c == '\U{202F}' || c == '\U{205F}' || c == '\U{3000}' || c == '\U{FEFF}'
  }

  function TrimStart(s: string): (r: string)
    ensures |r| <= |s| && r == s[|s| - |r|..]
    ensures forall i :: 0 <= i < |s| - |r| ==> IsJsWhitespace(s[i])
    ensures r != [] ==> !IsJsWhitespace(r[0])
  {
    if s != [] && IsJsWhitespace(s[0]) then TrimStart(s[1..]) else s
  }

  function TrimEnd(s: string): (r: string)
    ensures |r| <= |s| && r == s[..|r|]
    ensures forall i :: |r| <= i < |s| ==> IsJsWhitespace(s[i])
    ensures r != [] ==> !IsJsWhitespace(r[|r| - 1])
  {
    if s != [] && IsJsWhitespace(s[|s| - 1]) then TrimEnd(s[..|s| - 1]) else s
  }

  /** `id.trim()`: the slice of `id` left after dropping whitespace at both
      ends; everything dropped is whitespace and the slice neither starts
      nor ends with whitespace. */
  function Trim(s: string): (r: string)
    ensures exists lo, hi ::
      && 0 <= lo <= hi <= |s| && r == s[lo..hi]
      && (forall i :: 0 <= i < lo ==> IsJsWhitespace(s[i]))
      && (forall i :: hi <= i < |s| ==> IsJsWhitespace(s[i]))
    ensures r != [] ==> !IsJsWhitespace(r[0]) && !IsJsWhitespace(r[|r| - 1])
  {
    var t := TrimStart(s);
    var r := TrimEnd(t);
    var lo := |s| - |t|;
    assert r == s[lo..lo + |r|];
    r
  }

  /** The id sent to the search service: the trimmed id, prefixed with "PMC"
      exactly when it is a non-empty run of decimal digits. */
  function NormalizeId(id: string): (r: string)
    ensures var t := Trim(id);
      && (|t| > 0 && AllDigits(t) ==> r == "PMC" + t)
      && (!(|t| > 0 && AllDigits(t)) ==> r == t)
  {
    var t := Trim(id);
    if |t| > 0 && AllDigits(t) then "PMC" + t else t
  }

  /** `fetchByManualId`'s query. */
  function ManualQuery(id: string): (q: string)
    ensures q == "ext_id:" + NormalizeId(id)
  {
    "ext_id:" + NormalizeId(id)
  }

  /** Normalising is stable: a normalised id does not change again. */
  lemma NormalizeIdIdempotent(id: string)
    ensures NormalizeId(NormalizeId(id)) == NormalizeId(id)
  {
    var t := Trim(id);
    var n := NormalizeId(id);
    TrimUnchanged(n);
    if |t| > 0 && AllDigits(t) {
      assert !IsDigit(n[0]);
    }
  }

  /** The search asks for the same record whether the id is typed bare, with
      its "PMC" prefix, or already normalised. */
  lemma ManualQueryIgnoresPrefix(id: string)
    ensures ManualQuery(NormalizeId(id)) == ManualQuery(id)
    ensures var t := Trim(id);
            |t| > 0 && AllDigits(t) ==> ManualQuery(id) == ManualQuery("PMC" + t)
  {
    NormalizeIdIdempotent(id);
  }

  /** A string already free of surrounding whitespace is its own trim. */
  lemma TrimUnchanged(s: string)
    requires s != [] ==> !IsJsWhitespace(s[0]) && !IsJsWhitespace(s[|s| - 1])
    ensures Trim(s) == s
  {
  }

  /** The keys of the specialty table, in declaration order; "random" is the
      sentinel asking for any of the others. */
  const SpecialtyKeys: seq<string> := [
    "random", "Allergy_Immunology", "Anesthesiology", "Cardiology", "Surgery",
    "Oral_Surgery", "Pediatric_Surgery", "Plastic_Surgery", "Thoracic_Surgery",
    "Vascular_Surgery", "Visceral_Surgery", "Dermatology", "Endocrinology",
    "Genetics", "Geriatrics", "Gynecology", "Obstetrics_Gynecology", "Hematology",
    "Gastroenterology", "Infectious_Diseases", "Internal_Medicine", "Legal_Medicine",
    "Nuclear_Medicine", "Physical_Medicine", "Emergency_Medicine",
    "Occupational_Medicine", "General_Practice", "Vascular_Medicine", "Nephrology",
    "Neurosurgery", "Neurology", "Nutrition", "Oncology", "Ophthalmology",
    "Otolaryngology", "Orthopedics", "Pediatrics", "Pneumology", "Psychiatry",
    "Radiology", "Rheumatology", "Public_Health", "Urology"
  ]

  /** `keys.filter(k => k !== "random")`. */
  function WithoutRandom(keys: seq<string>): (r: seq<string>)
    ensures forall k :: k in r <==> k in keys && k != "random"
  {
    if keys == [] then []
    else if keys[0] == "random" then WithoutRandom(keys[1..])
    else [keys[0]] + WithoutRandom(keys[1..])
  }

  /** `Math.floor(u * n)` for `0 <= u < 1`: an index below `n`. */
  function RandomIndex(u: real, n: nat): (i: nat)
    requires 0.0 <= u < 1.0 && n > 0
    ensures i < n
  {
    var x := u * n as real;
    assert 0.0 <= x < n as real;
    x.Floor
  }

  lemma SpecialtiesBesidesRandom()
    ensures |WithoutRandom(SpecialtyKeys)| > 0
  {
    var k := SpecialtyKeys[1];
    assert k == "Allergy_Immunology";
    assert k[0] != 'r';
    assert k in WithoutRandom(SpecialtyKeys);
  }

  /** The specialty searched for: the given key, or for "random" one of the
      other keys chosen by `u`. */
  function QuerySpecialty(specialty: string, u: real): (k: string)
    requires 0.0 <= u < 1.0
    ensures specialty != "random" ==> k == specialty
    ensures specialty == "random" ==> k in SpecialtyKeys && k != "random"
  {
    if specialty == "random" then
      var keys := WithoutRandom(SpecialtyKeys);
      SpecialtiesBesidesRandom();
      keys[RandomIndex(u, |keys|)]
    else specialty
  }

  /** `replace(/_/g, " ")`. */
  function SearchTerms(key: string): (r: string)
    ensures |r| == |key| && '_' !in r
    ensures forall i :: 0 <= i < |key| ==> r[i] == (if key[i] == '_' then ' ' else key[i])
  {
    seq(|key|, i requires 0 <= i < |key| => if key[i] == '_' then ' ' else key[i])
  }

  /** The full query of `fetchRandomArticle`. */
  function CategoryQuery(specialty: string, u: real): string
    requires 0.0 <= u < 1.0
  {
    "(" + SearchTerms(QuerySpecialty(specialty, u)) +
    " AND (review OR \"randomized controlled trial\" OR cohort)) AND HAS_ABSTRACT:y AND OPEN_ACCESS:y"
  }

  /** The length of the match of `<[^>]*>?` at the start of `s`, which begins
      with '<': through the first '>' after it, or to the end of `s`. */
  function TagLength(s: string): (n: nat)
    requires s != [] && s[0] == '<'
    ensures 1 <= n <= |s|
    ensures forall i :: 1 <= i < n - 1 ==> s[i] != '>'
    ensures n < |s| ==> s[n - 1] == '>'
  {
    TagEnd(s, 1)
  }

  function TagEnd(s: string, i: nat): (n: nat)
    requires 1 <= i <= |s|
    requires forall k :: 1 <= k < i ==> s[k] != '>'
    ensures i <= n <= |s|
    ensures forall k :: 1 <= k < n - 1 ==> s[k] != '>'
    ensures n < |s| ==> s[n - 1] == '>'
    decreases |s| - i
  {
    if i == |s| then i
    else if s[i] == '>' then i + 1
    else TagEnd(s, i + 1)
  }

  /** `replace(/<[^>]*>?/gm, '')`: delete every tag, and an unterminated
      tag up to the end of the text. */
  function StripTags(s: string): (r: string)
    ensures '<' !in r
    ensures |r| <= |s|
    decreases |s|
  {
    if s == [] then []
    else if s[0] == '<' then StripTags(s[TagLength(s)..])
    else [s[0]] + StripTags(s[1..])
  }

  /** Text without '<' passes through unchanged. */
  lemma {:induction false} StripTagsPlainText(s: string)
    requires '<' !in s
    ensures StripTags(s) == s
  {
    if s != [] {
      StripTagsPlainText(s[1..]);
    }
  }

  /** Stripping twice is stripping once. */
  lemma StripTagsIdempotent(s: string)
    ensures StripTags(StripTags(s)) == StripTags(s)
  {
    StripTagsPlainText(StripTags(s));
  }

  /** Shown in place of a missing or empty abstract. */
  const MissingAbstract := "Data corrupted or missing."

  /** A search hit as the service returns it; its abstract may be absent. */
  datatype Hit = Hit(
    id: string,
    title: string,
    abstractText: Option<string>,
    authorString: string,
    pubYear: string,
    journalTitle: Option<string>)

  /** The service's answer: a list of hits, or a failure of the request or of
      decoding its body. */
  datatype Reply = Hits(results: seq<Hit>) | RequestFailed

  /** The abstract of the offline record (constants.ts), written in pieces
      around the word "randomized" and its one "<" so proofs can point at
      them. */
  const BackupAbstractHead := "Background: We conducted a " + "randomized" + ", double-blind, placebo-controlled trial to assess efficacy. Methods: Patients with acute ischemic stroke were assigned to thrombectomy or standard care. The primary outcome was functional independence at 90 days. Results: 500 patients were randomized. The odds ratio for functional independence was 2.5 (95% confidence interval, 1.8 to 3.5; P"
  const BackupAbstractTail := "0.001). Mortality was similar in both groups. There was no evidence of selection bias. Conclusion: Thrombectomy improved outcomes."

  /** The record kept for offline use. */
  const BackupArticle := Article(
    "CARDIO_RCT",
    "Efficacy of Endovascular Thrombectomy in Ischemic Stroke",
    BackupAbstractHead + "<" + BackupAbstractTail,
    "Smith et al.",
    "2023",
    Some("NEJM"))

  const OfflinePrefix := "[OFFLINE_MODE] "

  /** The sanitised abstract of a hit (`abstractText || fallback`: an empty
      abstract is replaced too). */
  function CleanAbstract(h: Hit): (r: string)
    ensures '<' !in r
    ensures (h.abstractText.None? || h.abstractText == Some("")) ==> r == StripTags(MissingAbstract)
    ensures h.abstractText.Some? && h.abstractText.value != "" ==> r == StripTags(h.abstractText.value)
  {
    var raw := if h.abstractText.None? || h.abstractText.value == "" then MissingAbstract else h.abstractText.value;
    StripTags(raw)
  }

  /** `loadArticleFromAPI`: one hit picked by `u`, its abstract sanitised;
      with no hits or a failed request, the marked offline record. No error
      reaches the caller. */
  function LoadArticle(reply: Reply, u: real): (a: Article)
    requires 0.0 <= u < 1.0
    ensures reply.Hits? && |reply.results| > 0 ==>
      exists i :: 0 <= i < |reply.results| &&
        var h := reply.results[i];
        a == Article(h.id, h.title, CleanAbstract(h), h.authorString, h.pubYear, h.journalTitle)
    ensures reply.RequestFailed? || reply.results == [] ==>
      a == BackupArticle.(title := OfflinePrefix + BackupArticle.title)
  {
    if reply.Hits? && |reply.results| > 0 then
      var rnd := RandomIndex(u, |reply.results|);
      var h := reply.results[rnd];
      Article(h.id, h.title, CleanAbstract(h), h.authorString, h.pubYear, h.journalTitle)
    else
      BackupArticle.(title := OfflinePrefix + BackupArticle.title)
  }

  /** Every article built from a hit is free of '<'. The offline record is
      returned as stored and is not sanitised: its abstract keeps the '<' of
      "P<0.001". */
  lemma LoadedAbstractSanitised(reply: Reply, u: real)
    requires 0.0 <= u < 1.0
    ensures reply.Hits? && |reply.results| > 0 ==> '<' !in LoadArticle(reply, u).abstractText
    ensures reply.RequestFailed? ==> '<' in LoadArticle(reply, u).abstractText
  {
    if reply.RequestFailed? {
      assert LoadArticle(reply, u).abstractText[|BackupAbstractHead|] == '<';
    }
  }

  /** A bare '<' that no '>' follows swallows the rest of the text: an
      abstract reporting "P<0.05" loses everything after the "P". */
  lemma StripTagsDropsTextAfterBareLessThan()
    ensures StripTags("P<0.05 in both arms") == "P"
  {
    var s := "P<0.05 in both arms";
    var t := s[1..];
    assert TagLength(t) == |t| by {
      assert forall k :: 1 <= k < |t| ==> t[k] != '>';
    }
    assert StripTags(t) == StripTags(t[|t|..]);
    assert t[|t|..] == [];
  }
}
