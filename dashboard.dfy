/** The reading dashboard (components/Dashboard.tsx): which critical-appraisal
    checklist an article gets, the ticks on that checklist, and the PICO
    classification. Every update builds a new value from the old one. */
module Dashboard {
  import opened Wrappers
  import opened Types
  import opened Text
  import PmcService

  /** The two checklists. */
  datatype ChecklistKind = RCT | OBS

  /** The word whose presence makes an abstract a randomised trial. */
  const TrialMarker := "randomized"

  /** `checklistType`: no checklist without an article; the trial checklist
      when the lower-cased abstract mentions "randomized"; the observational
      one otherwise. */
  function ChecklistType(article: Option<Article>): (k: Option<ChecklistKind>)
    ensures article.None? <==> k.None?
    ensures article.Some? ==>
      (k == Some(RCT) <==> exists i :: 0 <= i <= |article.value.abstractText| &&
                                       OccursAt(ToLowerAscii(article.value.abstractText), TrialMarker, i))
  {
    match article
    case None => None
    case Some(a) => if Contains(ToLowerAscii(a.abstractText), TrialMarker) then Some(RCT) else Some(OBS)
  }

  /** Lower-casing is idempotent, so the choice does not depend on the case
      the abstract is written in. */
  lemma ChecklistIgnoresCase(a: Article)
    ensures ChecklistType(Some(a.(abstractText := ToLowerAscii(a.abstractText)))) == ChecklistType(Some(a))
  {
    assert ToLowerAscii(ToLowerAscii(a.abstractText)) == ToLowerAscii(a.abstractText);
  }

  /** The test ignores case and position: any abstract with a word that
      lower-cases to the marker gets the trial checklist. */
  lemma MarkerInAnyCaseGetsTrialChecklist(a: Article, p: string, w: string, q: string)
    requires a.abstractText == p + w + q
    requires ToLowerAscii(w) == TrialMarker
    ensures ChecklistType(Some(a)) == Some(RCT)
  {
    var low := ToLowerAscii(a.abstractText);
    forall k | 0 <= k < |w|
      ensures low[|p| + k] == ToLowerAscii(w)[k]
    {
      assert a.abstractText[|p| + k] == w[k];
    }
    assert low[|p|..|p| + |w|] == TrialMarker;
    assert OccursAt(low, TrialMarker, |p|);
  }

  /** The test is a substring test: an abstract that says "Non-Randomized"
      anywhere still gets the trial checklist. */
  lemma NonRandomizedGetsTrialChecklist(a: Article, p: string, q: string)
    requires a.abstractText == p + "Non-" + "Randomized" + q
    ensures ChecklistType(Some(a)) == Some(RCT)
  {
    var word := "Randomized";
    assert ToLowerAscii(word) == TrialMarker by {
      assert LowerAscii('R') == 'r';
    }
    assert a.abstractText == (p + "Non-") + word + q;
    MarkerInAnyCaseGetsTrialChecklist(a, p + "Non-", word, q);
  }

  /** An abstract without the letter r, in either case, cannot mention the
      marker, so it gets the observational checklist. */
  lemma NoLetterRGetsObservationalChecklist(a: Article)
    requires forall i :: 0 <= i < |a.abstractText| ==> a.abstractText[i] != 'r' && a.abstractText[i] != 'R'
    ensures ChecklistType(Some(a)) == Some(OBS)
  {
    var low := ToLowerAscii(a.abstractText);
    forall i | 0 <= i <= |low|
      ensures !OccursAt(low, TrialMarker, i)
    {
      if i + |TrialMarker| <= |low| {
        assert low[i..i + |TrialMarker|][0] == low[i];
        assert low[i] != 'r';
      }
    }
  }

  /** The offline record reports a randomised trial, so it gets the trial
      checklist, with or without the offline title mark. */
  lemma OfflineRecordGetsTrialChecklist(title: string)
    ensures ChecklistType(Some(PmcService.BackupArticle.(title := title))) == Some(RCT)
  {
    var opening := "Background: We conducted a ";
    var text := PmcService.BackupArticle.abstractText;
    assert |opening| == 27;
    assert text[27..37] == TrialMarker;
    var low := ToLowerAscii(text);
    assert low[27..37] == TrialMarker;
    assert OccursAt(low, TrialMarker, 27);
  }

  /** The checklist items, five per checklist. */
  function ChecklistItems(k: ChecklistKind): (items: seq<string>)
    ensures |items| == 5
  {
    match k
    case RCT => ["Randomization described?", "Allocation concealed?", "Blinding maintained?", "ITT analysis?", "Flow diagram?"]
    case OBS => ["Design appropriate?", "Selection criteria?", "Biases discussed?", "Confounders adjusted?", "Follow-up adequate?"]
  }

  /** The ticks: item `i` maps to true for 'Y' and to false for null. An
      item never clicked has no entry. */
  type Ticks = map<nat, bool>

  predicate IsTicked(m: Ticks, i: nat) {
    i in m && m[i]
  }

  /** Clicking item `i`: 'Y' becomes null and anything else becomes 'Y'. */
  function Click(m: Ticks, i: nat): (r: Ticks)
    ensures r.Keys == m.Keys + {i}
    ensures IsTicked(r, i) <==> !IsTicked(m, i)
    ensures forall j :: j != i && j in m ==> r[j] == m[j]
  {
    m[i := !IsTicked(m, i)]
  }

  /** Two clicks on the same item leave every item ticked as before, and
      give back the very same map once the item has an entry. */
  lemma ClickTwice(m: Ticks, i: nat)
    ensures forall j :: IsTicked(Click(Click(m, i), i), j) <==> IsTicked(m, j)
    ensures i in m ==> Click(Click(m, i), i) == m
  {
  }

  /** Clicks only ever create entries for items of the shown checklist. */
  lemma ClickStaysOnChecklist(m: Ticks, i: nat, k: ChecklistKind)
    requires forall j :: j in m ==> j < |ChecklistItems(k)|
    requires i < |ChecklistItems(k)|
    ensures forall j :: j in Click(m, i) ==> j < |ChecklistItems(k)|
  {
  }

  /** The three PICO groups. */
  datatype PicoCategory = Pop | Int | Out

  /** The chosen option of each group ("pop", "int", "out"); "" when none is
      chosen. */
  datatype PicoState = PicoState(pop: string, intervention: string, out: string)

  function Chosen(s: PicoState, g: PicoCategory): string {
    match g
    case Pop => s.pop
    case Int => s.intervention
    case Out => s.out
  }

  /** The options offered in each group. */
  function PicoOptions(g: PicoCategory): (opts: seq<string>)
    ensures |opts| == 4
  {
    match g
    case Pop => ["General Adults", "Pediatrics", "Geriatrics", "Specific Disease"]
    case Int => ["Medication", "Surgery", "Lifestyle", "Observation"]
    case Out => ["Mortality", "Morbidity", "Quality of Life", "Patient-Reported Outcomes"]
  }

  /** Choosing `opt` in group `g` sets that group and no other. */
  function SelectPico(s: PicoState, g: PicoCategory, opt: string): (r: PicoState)
    ensures Chosen(r, g) == opt
    ensures forall h :: h != g ==> Chosen(r, h) == Chosen(s, h)
  {
    match g
    case Pop => s.(pop := opt)
    case Int => s.(intervention := opt)
    case Out => s.(out := opt)
  }

  /** Every group is empty or holds one of its own options. */
  predicate PicoWellFormed(s: PicoState) {
    forall g :: Chosen(s, g) == "" || Chosen(s, g) in PicoOptions(g)
  }

  /** Choosing an offered option keeps the classification well formed. */
  lemma SelectPicoWellFormed(s: PicoState, g: PicoCategory, opt: string)
    requires PicoWellFormed(s)
    requires opt in PicoOptions(g)
    ensures PicoWellFormed(SelectPico(s, g, opt))
  {
    var r := SelectPico(s, g, opt);
    forall h
      ensures Chosen(r, h) == "" || Chosen(r, h) in PicoOptions(h)
    {
      if h != g {
        assert Chosen(r, h) == Chosen(s, h);
      }
    }
  }

  /** Choices in different groups commute, and choosing twice in one group
      keeps the last choice. */
  lemma SelectPicoCommutes(s: PicoState, g: PicoCategory, h: PicoCategory, a: string, b: string)
    ensures g != h ==> SelectPico(SelectPico(s, g, a), h, b) == SelectPico(SelectPico(s, h, b), g, a)
    ensures SelectPico(SelectPico(s, g, a), g, b) == SelectPico(s, g, b)
  {
  }

  /** The dashboard's own state. */
  datatype DashboardState = DashboardState(pico: PicoState, ticks: Ticks)

  /** What a new article brings: three empty PICO groups and no ticks. */
  function ArticleChanged(): (d: DashboardState)
    ensures forall g :: Chosen(d.pico, g) == ""
    ensures forall i :: !IsTicked(d.ticks, i)
    ensures d.ticks == map[]
  {
    DashboardState(PicoState("", "", ""), map[])
  }

  /** The fresh state is well formed. */
  lemma ArticleChangedWellFormed()
    ensures PicoWellFormed(ArticleChanged().pico)
  {
  }
}
