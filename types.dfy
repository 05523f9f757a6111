/** The records shared by the services and components (types.ts). */
module Types {
  import opened Wrappers

  /** A point in time: `millis` since the epoch, with the month (0..11) and
      year of the local calendar at that instant. How month and year follow
      from `millis` (time zone, leap years) is not part of this model. */
  datatype Moment = Moment(millis: int, month: int, year: int)

  datatype Article = Article(
    id: string,
    title: string,
    abstractText: string,
    authorString: string,
    pubYear: string,
    journalTitle: Option<string>)

  datatype OptionStatus = Correct | Neutral | Discordance

  datatype QuizOption = QuizOption(id: string, text: string, status: OptionStatus)

  /** Educational rank of a question: A (must know) or B. */
  datatype QuestionRank = RankA | RankB

  datatype QuestionType = TF | KFP

  /** `c` is the expected True/False answer, absent on KFP questions;
      `qtype` and `options` may be absent, as in the source record. */
  datatype QuizQuestion = QuizQuestion(
    t: string,
    r: QuestionRank,
    c: Option<bool>,
    e: string,
    qtype: Option<QuestionType>,
    options: Option<seq<QuizOption>>)

  datatype ExamResult = ExamResult(id: string, date: Moment, score: int, total: int)

  datatype SessionType = Cours | Exos | Ecos | Flashcards

  datatype SessionStatus = Pending | Done

  /** A study session; `date` is a calendar day number (the source keeps the
      ISO `YYYY-MM-DD` string of that day). */
  datatype StudySession = StudySession(
    id: string,
    date: int,
    topic: string,
    focus: string,
    stype: SessionType,
    duration: int,
    status: SessionStatus)

  datatype Subscription = Free | Premium

  /** The source stores the rank as one of four strings. */
  datatype Rank = Novice | Operative | Specialist | Elite

  datatype User = User(
    username: string,
    rank: Rank,
    exp: int,
    history: seq<string>,
    examResults: seq<ExamResult>,
    studyPlan: seq<StudySession>,
    subscription: Subscription,
    usageCount: int,
    lastResetDate: Moment,
    highlightsEnabled: bool)
}
