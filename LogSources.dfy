/** Where the log query's lines come from: the per-entry decision of the walk
    over /var/log, the family of a log file, and the line filter that the
    service builds as a grep pipeline, stated here as a predicate on lines. */
module LogSources {
  import opened GoStrings
  import opened SshHistory

  /** A registered log file: its path and the year of its modification time. */
  datatype FileItem = FileItem(name: string, year: int)

  /** One entry as the directory walk reports it, with the filesystem facts
      the walk callback consults: whether the unpacked twin of an archive is
      missing, and whether unpacking the archive succeeds. */
  datatype WalkEntry = WalkEntry(
    path: string,
    name: string,
    isDir: bool,
    modYear: int,
    twinMissing: bool,
    gunzipOk: bool)

  const ArchiveSuffix: string := ".gz"

  /** The walk's test, with Go's precedence: `&&` binds tighter than `||`, so
      the directory test guards only the "secure" prefix. */
  predicate IsCandidate(name: string, isDir: bool) {
    (!isDir && HasPrefix(name, "secure")) || HasPrefix(name, "auth")
  }

  /** What the walk registers for one entry: a plain candidate as it is; an
      archived candidate as its unpacked twin, only when the twin was missing
      and unpacking succeeded; nothing otherwise. */
  function Discover(e: WalkEntry): (r: Option<FileItem>)
    ensures r.Some? <==>
      IsCandidate(e.name, e.isDir) && (!HasSuffix(e.name, ArchiveSuffix) || (e.twinMissing && e.gunzipOk))
    ensures r.Some? ==> r.value.year == e.modYear
    ensures r.Some? && !HasSuffix(e.name, ArchiveSuffix) ==> r.value.name == e.path
    ensures r.Some? && HasSuffix(e.name, ArchiveSuffix) && HasSuffix(e.path, ArchiveSuffix) ==>
      r.value.name + ArchiveSuffix == e.path
  {
    if !IsCandidate(e.name, e.isDir) then None
    else if !HasSuffix(e.name, ArchiveSuffix) then Some(FileItem(e.path, e.modYear))
    else if e.twinMissing && e.gunzipOk then Some(FileItem(TrimSuffix(e.path, ArchiveSuffix), e.modYear))
    else None
  }

  /** The precedence quirk: a directory whose name starts with "auth" is
      registered, one whose name starts with "secure" is not. */
  lemma DirectoryQuirk(path: string, year: int, twinMissing: bool, gunzipOk: bool)
    ensures Discover(WalkEntry(path, "auth.d", true, year, twinMissing, gunzipOk))
            == Some(FileItem(path, year))
    ensures Discover(WalkEntry(path, "secure.d", true, year, twinMissing, gunzipOk)) == None
  {
    assert !HasSuffix("auth.d", ArchiveSuffix);
    assert "secure.d"[..4][0] != "auth"[0];
  }

  /** The log families, by the base name of the file. */
  datatype Family = SecureFamily | AuthLogFamily | NoFamily

  function FamilyOf(name: string): (f: Family)
    ensures f == SecureFamily <==> HasPrefix(Base(name), "secure")
    ensures f == AuthLogFamily <==> HasPrefix(Base(name), "auth.log")
  {
    var b := Base(name);
    assert HasPrefix(b, "auth.log") ==> b[..6][0] == 'a' && !HasPrefix(b, "secure");
    if HasPrefix(b, "auth.log") then AuthLogFamily
    else if HasPrefix(b, "secure") then SecureFamily
    else NoFamily
  }

  /** The outcome a query asks for. */
  datatype StatusFilter = OnlySuccess | OnlyFailed | AnyStatus

  function FilterOf(status: string): StatusFilter {
    if status == StatusSuccess then OnlySuccess
    else if status == StatusFailed then OnlyFailed
    else AnyStatus
  }

  /** The search request: keyword, outcome, page number and page size. */
  datatype SearchSSHLog = SearchSSHLog(info: string, status: string, page: int, pageSize: int)

  /** The grep pipeline of one family and outcome, as a test on one line. */
  predicate Selects(fam: Family, f: StatusFilter, line: string) {
    match fam
    case SecureFamily => (
      match f
      case OnlySuccess => Contains(line, "Accepted")
      case OnlyFailed => Contains(line, FailedPasswordMarker) && !Contains(line, "invalid")
      case AnyStatus =>
        (Contains(line, FailedPasswordMarker) || Contains(line, "Accepted"))
        && !Contains(line, "invalid"))
    case AuthLogFamily => (
      match f
      case OnlySuccess => Contains(line, "Accepted")
      case OnlyFailed => Contains(line, ConnectionClosedMarker) && Contains(line, "preauth")
      case AnyStatus =>
        (Contains(line, ConnectionClosedMarker) || Contains(line, "Accepted"))
        && !Contains(line, "invalid"))
    case NoFamily => false
  }

  /** A line passes the whole pipeline: the family filter, then the keyword
      grep when the request carries a keyword (`infoMatch` is that grep pattern). */
  predicate Keeps(fam: Family, req: SearchSSHLog, infoMatch: string -> bool, line: string) {
    Selects(fam, FilterOf(req.status), line) && (req.info == "" || infoMatch(line))
  }

  /** The lines the pipeline prints, in file order. */
  function SelectLines(lines: seq<string>, fam: Family, req: SearchSSHLog, infoMatch: string -> bool)
    : (r: seq<string>)
    ensures |r| <= |lines|
    ensures forall l :: l in r <==> l in lines && Keeps(fam, req, infoMatch, l)
  {
    if lines == [] then []
    else
      var rest := SelectLines(lines[1..], fam, req, infoMatch);
      assert forall l :: l in lines <==> l == lines[0] || l in lines[1..];
      if Keeps(fam, req, infoMatch, lines[0]) then [lines[0]] + rest else rest
  }

  /** One line is printed exactly when it passes. */
  lemma SelectLinesOne(line: string, fam: Family, req: SearchSSHLog, infoMatch: string -> bool)
    ensures SelectLines([line], fam, req, infoMatch)
            == if Keeps(fam, req, infoMatch, line) then [line] else []
  {
    assert [line][1..] == [];
  }

  /** The pipeline works line by line: the lines of two parts of a file are
      printed in the file's order, repeated lines included. */
  lemma {:induction false} SelectLinesAppend(a: seq<string>, b: seq<string>, fam: Family,
                                             req: SearchSSHLog, infoMatch: string -> bool)
    ensures SelectLines(a + b, fam, req, infoMatch)
            == SelectLines(a, fam, req, infoMatch) + SelectLines(b, fam, req, infoMatch)
  {
    if a == [] {
      assert a + b == b;
    } else {
      assert (a + b)[0] == a[0];
      assert (a + b)[1..] == a[1..] + b;
      SelectLinesAppend(a[1..], b, fam, req, infoMatch);
    }
  }

  /** What running one file's command gives: an error, or the printed lines. */
  datatype FileOutput = ExecError | Lines(lines: seq<string>)

  /** The command output for one file. A file of no family gets an empty
      command; a pipeline that prints nothing exits with grep's "no match"
      status. Both read as an error. `read` gives the lines of a file (none
      when it cannot be read). */
  function CommandOutput(file: FileItem, req: SearchSSHLog, read: string -> seq<string>,
                         infoMatch: string -> bool): (out: FileOutput)
    ensures out.ExecError? <==>
      FamilyOf(file.name) == NoFamily
      || SelectLines(read(file.name), FamilyOf(file.name), req, infoMatch) == []
    ensures out.Lines? ==>
      out.lines == SelectLines(read(file.name), FamilyOf(file.name), req, infoMatch)
    ensures out.Lines? ==>
      forall l :: l in out.lines ==> Keeps(FamilyOf(file.name), req, infoMatch, l)
  {
    var fam := FamilyOf(file.name);
    if fam == NoFamily then ExecError
    else
      var sel := SelectLines(read(file.name), fam, req, infoMatch);
      if sel == [] then ExecError else Lines(sel)
  }

  /** The six pipelines, by the markers each requires and excludes. */
  lemma PipelineMarkers(line: string)
    ensures Selects(SecureFamily, OnlySuccess, line) <==> Contains(line, "Accepted")
    ensures Selects(SecureFamily, OnlyFailed, line) <==>
      Contains(line, "Failed password for") && !Contains(line, "invalid")
    ensures Selects(SecureFamily, AnyStatus, line) <==>
      (Contains(line, "Failed password for") || Contains(line, "Accepted"))
      && !Contains(line, "invalid")
    ensures Selects(AuthLogFamily, OnlySuccess, line) <==> Contains(line, "Accepted")
    ensures Selects(AuthLogFamily, OnlyFailed, line) <==>
      Contains(line, "Connection closed by authenticating user") && Contains(line, "preauth")
    ensures Selects(AuthLogFamily, AnyStatus, line) <==>
      (Contains(line, "Connection closed by authenticating user") || Contains(line, "Accepted"))
      && !Contains(line, "invalid")
    ensures !Selects(NoFamily, OnlySuccess, line) && !Selects(NoFamily, OnlyFailed, line)
      && !Selects(NoFamily, AnyStatus, line)
  {
  }

  /** The success pipeline of either family prints every line the parser
      classifies as a success. */
  lemma SuccessPipelineKeepsAccepted(fam: Family, line: string)
    requires fam != NoFamily && Classify(line) == Accepted
    ensures Selects(fam, OnlySuccess, line)
  {
    assert HasPrefix(AcceptedMarker, "Accepted");
    ContainsPrefix(line, AcceptedMarker, "Accepted");
  }

  /** The unfiltered pipeline of a family prints every line of that family's
      failure shape or of the success shape, unless it mentions "invalid". */
  lemma AnyPipelineKeepsShapes(fam: Family, line: string)
    requires !Contains(line, "invalid")
    requires fam == SecureFamily ==> Classify(line) == FailedSecure || Classify(line) == Accepted
    requires fam == AuthLogFamily ==> Classify(line) == FailedAuth || Classify(line) == Accepted
    requires fam != NoFamily
    ensures Selects(fam, AnyStatus, line)
  {
    if Classify(line) == Accepted {
      assert HasPrefix(AcceptedMarker, "Accepted");
      ContainsPrefix(line, AcceptedMarker, "Accepted");
    }
  }

  /** A line that passes a "failed" filter is never classified as a success. */
  lemma FailedFilterExcludesAccepted(fam: Family, line: string)
    requires Selects(fam, OnlyFailed, line)
    ensures Classify(line) == FailedSecure || Classify(line) == FailedAuth
  {
  }
}
