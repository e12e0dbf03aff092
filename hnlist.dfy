/** HNList.swift: the six named lists, a `String`-raw-value, `CaseIterable` enum. */
module HNLists {
  import opened Wrappers

  datatype HNList = TopStories | BestStories | NewStories | AskStories | ShowStories | JobStories

  /** `allCases`, in declaration order. */
  const AllCases: seq<HNList> := [TopStories, BestStories, NewStories, AskStories, ShowStories, JobStories]

  /** `rawValue`: the case name. */
  function RawValue(l: HNList): string
  {
    match l
    case TopStories => "topStories"
    case BestStories => "bestStories"
    case NewStories => "newStories"
    case AskStories => "askStories"
    case ShowStories => "showStories"
    case JobStories => "jobStories"
  }

  /** `init?(rawValue:)`: exact, case-sensitive match. */
  function FromRawValue(s: string): Option<HNList>
  {
    if s == "topStories" then Some(TopStories)
    else if s == "bestStories" then Some(BestStories)
    else if s == "newStories" then Some(NewStories)
    else if s == "askStories" then Some(AskStories)
    else if s == "showStories" then Some(ShowStories)
    else if s == "jobStories" then Some(JobStories)
    else None
  }

  /** The raw value codec: a string names a list exactly when it is that list's raw value. */
  lemma RawValueCodec(s: string, l: HNList)
    ensures FromRawValue(s) == Some(l) <==> RawValue(l) == s
  {
  }

  lemma RawValuesDistinct(a: HNList, b: HNList)
    requires RawValue(a) == RawValue(b)
    ensures a == b
  {
    RawValueCodec(RawValue(a), a);
    RawValueCodec(RawValue(b), b);
  }

  /** Exactly six lists, each once, in the order top, best, new, ask, show, job. */
  lemma AllCasesComplete(l: HNList)
    ensures |AllCases| == 6 && l in AllCases
    ensures [RawValue(AllCases[0]), RawValue(AllCases[1]), RawValue(AllCases[2]),
             RawValue(AllCases[3]), RawValue(AllCases[4]), RawValue(AllCases[5])]
         == ["topStories", "bestStories", "newStories", "askStories", "showStories", "jobStories"]
    ensures forall i, j :: 0 <= i < j < |AllCases| ==> AllCases[i] != AllCases[j]
  {
  }
}
