/** The records that the suite loader and the case merge work on (src/ats2/common.h, src/atsclnt/caseManager.cpp). */
module CaseData {

  import opened Basics

  /** A platform tag `[name]` or `[^name]`; the caret means every platform but this one. */
  datatype Tag = Tag(name: string, except: bool)

  datatype Kind = Sql | Ts | Tl | Xml | Unknown

  /** A line of a suite file after character-level parsing. */
  datatype Line =
    | TagOnly(tag: Option<Tag>)  // nothing but a tag, a comment or white space
    | Description(tag: Option<Tag>)  // the suite's description line
    | Undotted(tag: Option<Tag>)  // a name without a dot: no case, but it drops a pending tag
    | UnknownType(tag: Option<Tag>)  // a name of no known type: it moves the scoping state, but is not listed
    | Item(tag: Option<Tag>, commented: bool, name: string, kind: Kind, comment: string, children: seq<Line>)

  /** An `Item` with the tag that applies to it: its own, or one pending from the lines before it. */
  datatype Entry = Entry(tag: Option<Tag>, commented: bool, name: string, kind: Kind, comment: string, children: seq<Entry>)

  datatype Mark = Runnable | NotRunnable | RunSkip

  const PLAT_OFF: int := 0
  const PLAT_ON: int := 1

  /** A record of the case list, as the source stores it. */
  datatype CaseInfo = CaseInfo(
    caseName: string, caseFlag: int, casePlatformName: string, caseComment: string,
    caseType: Kind, caseMark: Mark, tsName: string)

  /** What the record means. */
  datatype Case = Case(entry: Entry, tag: Option<Tag>, mark: Mark, file: string)

  function FlagOf(except: bool): int { if except then PLAT_ON else PLAT_OFF }

  /** The flag means nothing without a platform name. */
  ghost predicate Shows(info: CaseInfo, c: Case) {
    && info.caseName == c.entry.name && info.caseComment == c.entry.comment && info.caseType == c.entry.kind
    && info.caseMark == c.mark && info.tsName == c.file
    && match c.tag
       case None => info.casePlatformName == ""
       case Some(t) => info.casePlatformName == t.name != "" && info.caseFlag == FlagOf(t.except)
  }

  ghost predicate ShowsAll(infos: seq<CaseInfo>, cases: seq<Case>) {
    |infos| == |cases| && forall i :: 0 <= i < |infos| ==> Shows(infos[i], cases[i])
  }
}
