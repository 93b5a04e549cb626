/** The SSH log query: every file's matching lines are turned into records,
    last line first, and one page of the combined record stream is kept while
    every record is counted. The page is found with a window [from, to) that
    is shifted left by each file's record count, so the stream is never
    materialised. */
module LogQuery {
  import opened GoStrings
  import opened SshHistory
  import opened LogSources

  /** What a kept record gets on top of its parsed fields: the area of its
      address (the offline geo-IP lookup) and its date (year of the file). */
  function Enrich(r: SSHHistory, year: int, area: string -> string): (e: SSHHistory)
    ensures e.area == area(r.address) && e.date == Local(year, r.dateStr)
    ensures e.dateStr == r.dateStr && e.user == r.user && e.authMode == r.authMode
    ensures e.address == r.address && e.port == r.port && e.status == r.status
    ensures e.message == r.message
  {
    r.(area := area(r.address), date := Local(year, r.dateStr))
  }

  /** The record one line contributes: none for a line of no shape or with
      too few fields. */
  function LineEvent(line: string, year: int, area: string -> string): (es: seq<SSHHistory>)
    ensures |es| <= 1
    ensures |es| == 1 <==> Classify(line) != Unmatched && |Fields(line)| >= MinFields
    ensures |es| == 1 ==> es[0] == Enrich(ParseLine(line), year, area)
  {
    var r := ParseLine(line);
    if r.address != [] then [Enrich(r, year, area)] else []
  }

  /** The record stream of one file's matching lines, last line first. */
  function FileEvents(lines: seq<string>, year: int, area: string -> string): (es: seq<SSHHistory>)
    ensures |es| <= |lines|
    ensures forall k :: 0 <= k < |es| ==>
      es[k].address != [] && (es[k].status == StatusSuccess || es[k].status == StatusFailed)
  {
    if lines == [] then []
    else FileEvents(lines[1..], year, area) + LineEvent(lines[0], year, area)
  }

  /** The last line of a file comes first in its stream. */
  lemma {:induction false} FileEventsLastFirst(lines: seq<string>, line: string, year: int,
                                               area: string -> string)
    ensures FileEvents(lines + [line], year, area)
            == LineEvent(line, year, area) + FileEvents(lines, year, area)
  {
    if lines == [] {
      assert [line][1..] == [];
    } else {
      assert (lines + [line])[1..] == lines[1..] + [line];
      FileEventsLastFirst(lines[1..], line, year, area);
    }
  }

  /** The records of one command output; a failed command gives none. */
  function EventsOf(out: FileOutput, year: int, area: string -> string): seq<SSHHistory> {
    match out
    case ExecError => []
    case Lines(lines) => FileEvents(lines, year, area)
  }

  /** The number of records with the given status. */
  function CountStatus(es: seq<SSHHistory>, status: string): (n: nat)
    ensures n <= |es|
  {
    if es == [] then 0
    else CountStatus(es[..|es| - 1], status) + (if es[|es| - 1].status == status then 1 else 0)
  }

  lemma {:induction false} CountStatusAppend(a: seq<SSHHistory>, b: seq<SSHHistory>, status: string)
    ensures CountStatus(a + b, status) == CountStatus(a, status) + CountStatus(b, status)
    decreases |b|
  {
    if b != [] {
      assert (a + b)[..|a + b| - 1] == a + b[..|b| - 1];
      CountStatusAppend(a, b[..|b| - 1], status);
    } else {
      assert a + b == a;
    }
  }

  /** When every record is a success or a failure, the two counts add up to
      the number of records. */
  lemma {:induction false} CountPartition(es: seq<SSHHistory>)
    requires forall k :: 0 <= k < |es| ==> es[k].status == StatusSuccess || es[k].status == StatusFailed
    ensures CountStatus(es, StatusSuccess) + CountStatus(es, StatusFailed) == |es|
  {
    if es != [] {
      CountPartition(es[..|es| - 1]);
    }
  }

  function Max(a: int, b: int): int { if a < b then b else a }
  function Min(a: int, b: int): int { if a < b then a else b }

  function Clamp(x: int, n: nat): (c: nat)
    ensures c <= n
  {
    if x < 0 then 0 else if x > n then n else x
  }

  /** The elements of `s` whose positions p satisfy from <= p < to; either
      bound may lie outside the sequence or be negative. */
  function Window<T>(s: seq<T>, from: int, to: int): (w: seq<T>)
    ensures |w| == Max(0, Min(to, |s|) - Max(from, 0))
    ensures forall k :: 0 <= k < |w| ==>
      from <= Max(from, 0) + k < to && Max(from, 0) + k < |s| && w[k] == s[Max(from, 0) + k]
  {
    var lo, hi := Clamp(from, |s|), Clamp(to, |s|);
    if lo < hi then s[lo..hi] else []
  }

  /** A window over a stream that grows by one record grows by that record
      exactly when the record's position lies in the window. */
  lemma WindowSnoc<T>(s: seq<T>, e: T, from: int, to: int)
    ensures Window(s + [e], from, to)
            == Window(s, from, to) + (if from <= |s| < to then [e] else [])
  {
    var w, w' := Window(s, from, to), Window(s + [e], from, to);
    var x := if from <= |s| < to then [e] else [];
    assert |w'| == |w + x|;
    forall k | 0 <= k < |w'| ensures w'[k] == (w + x)[k] {
      if k < |w| { assert w'[k] == (s + [e])[Max(from, 0) + k]; }
    }
  }

  /** The window over two streams in a row is the window over the first,
      followed by the window over the second with both bounds shifted left by
      the first stream's length. */
  lemma WindowAppend<T>(a: seq<T>, b: seq<T>, from: int, to: int)
    ensures Window(a + b, from, to) == Window(a, from, to) + Window(b, from - |a|, to - |a|)
  {
    var w := Window(a + b, from, to);
    var wa, wb := Window(a, from, to), Window(b, from - |a|, to - |a|);
    assert |w| == |wa| + |wb|;
    forall k | 0 <= k < |w| ensures w[k] == (wa + wb)[k] {
      if k < |wa| {
        assert w[k] == (a + b)[Max(from, 0) + k];
      } else {
        assert w[k] == (a + b)[Max(from, 0) + k];
        assert wb[k - |wa|] == b[Max(from - |a|, 0) + k - |wa|];
      }
    }
  }

  /** A file keeps no more records than it counts, and no more than the
      window is wide. */
  lemma KeptBound<T>(s: seq<T>, from: int, to: int)
    ensures |Window(s, from, to)| <= |s|
    ensures |Window(s, from, to)| <= Max(0, to - from)
  {
  }

  /** The counters and the kept records after a prefix `seen` of a file's
      record stream. */
  ghost predicate Tallied(seen: seq<SSHHistory>, datas: seq<SSHHistory>, successCount: int,
                          failedCount: int, from: int, to: int)
  {
    && successCount == CountStatus(seen, StatusSuccess)
    && failedCount == CountStatus(seen, StatusFailed)
    && successCount + failedCount == |seen|
    && datas == Window(seen, from, to)
  }

  /** Counting one more record, and keeping it when its position lies in
      the window, keeps the tally. */
  lemma TallyStep(seen: seq<SSHHistory>, datas: seq<SSHHistory>, successCount: int,
                  failedCount: int, from: int, to: int, e: SSHHistory)
    requires Tallied(seen, datas, successCount, failedCount, from, to)
    requires e.status == StatusSuccess || e.status == StatusFailed
    ensures Tallied(seen + [e],
                    datas + (if from <= successCount + failedCount < to then [e] else []),
                    successCount + (if e.status == StatusSuccess then 1 else 0),
                    failedCount + (if e.status == StatusFailed then 1 else 0), from, to)
  {
    WindowSnoc(seen, e, from, to);
    assert (seen + [e])[..|seen + [e]| - 1] == seen;
  }

  /** One pass of loadSSHData's loop: the switch on the line's markers. */
  method VisitLine(line: string, datas: seq<SSHHistory>, successCount: int, failedCount: int,
                   showCountFrom: int, showCountTo: int, currentYear: int, area: string -> string,
                   ghost seen: seq<SSHHistory>)
    returns (datas': seq<SSHHistory>, successCount': int, failedCount': int)
    requires Tallied(seen, datas, successCount, failedCount, showCountFrom, showCountTo)
    ensures Tallied(seen + LineEvent(line, currentYear, area), datas', successCount', failedCount',
                    showCountFrom, showCountTo)
  {
    datas', successCount', failedCount' := datas, successCount, failedCount;
    ghost var ev := LineEvent(line, currentYear, area);
    var itemData: SSHHistory;
    if Contains(line, FailedPasswordMarker) {
      itemData := LoadFailedSecureDatas(line);
      if |itemData.address| != 0 {
        TallyStep(seen, datas, successCount, failedCount, showCountFrom, showCountTo,
                  Enrich(itemData, currentYear, area));
        if successCount' + failedCount' >= showCountFrom && successCount' + failedCount' < showCountTo {
          itemData := itemData.(area := area(itemData.address), date := Local(currentYear, itemData.dateStr));
          datas' := datas' + [itemData];
        }
        failedCount' := failedCount' + 1;
      }
    } else if Contains(line, ConnectionClosedMarker) {
      itemData := LoadFailedAuthDatas(line);
      if |itemData.address| != 0 {
        TallyStep(seen, datas, successCount, failedCount, showCountFrom, showCountTo,
                  Enrich(itemData, currentYear, area));
        if successCount' + failedCount' >= showCountFrom && successCount' + failedCount' < showCountTo {
          itemData := itemData.(area := area(itemData.address), date := Local(currentYear, itemData.dateStr));
          datas' := datas' + [itemData];
        }
        failedCount' := failedCount' + 1;
      }
    } else if Contains(line, AcceptedMarker) {
      itemData := LoadSuccessDatas(line);
      if |itemData.address| != 0 {
        TallyStep(seen, datas, successCount, failedCount, showCountFrom, showCountTo,
                  Enrich(itemData, currentYear, area));
        if successCount' + failedCount' >= showCountFrom && successCount' + failedCount' < showCountTo {
          itemData := itemData.(area := area(itemData.address), date := Local(currentYear, itemData.dateStr));
          datas' := datas' + [itemData];
        }
        successCount' := successCount' + 1;
      }
    }
    if ev == [] {
      assert seen + ev == seen;
    }
  }

  /** loadSSHData: walks one file's matching lines from last to first; every
      record with an address is counted as a success or a failure, and kept
      (with area and date) when the count before it lies in [from, to). */
  method LoadSSHData(out: FileOutput, showCountFrom: int, showCountTo: int, currentYear: int,
                     area: string -> string)
    returns (datas: seq<SSHHistory>, successCount: int, failedCount: int)
    ensures datas == Window(EventsOf(out, currentYear, area), showCountFrom, showCountTo)
    ensures successCount == CountStatus(EventsOf(out, currentYear, area), StatusSuccess)
    ensures failedCount == CountStatus(EventsOf(out, currentYear, area), StatusFailed)
    ensures successCount + failedCount == |EventsOf(out, currentYear, area)|
  {
    datas, successCount, failedCount := [], 0, 0;
    if out.ExecError? {
      return;
    }
    var lines := out.lines;
    var i := |lines| - 1;
    assert lines[i + 1..] == [];
    assert Window<SSHHistory>([], showCountFrom, showCountTo) == [];
    while i >= 0
      invariant -1 <= i < |lines|
      invariant Tallied(FileEvents(lines[i + 1..], currentYear, area), datas, successCount,
                        failedCount, showCountFrom, showCountTo)
    {
      assert lines[i..][1..] == lines[i + 1..];
      datas, successCount, failedCount :=
        VisitLine(lines[i], datas, successCount, failedCount, showCountFrom, showCountTo,
                  currentYear, area, FileEvents(lines[i + 1..], currentYear, area));
      i := i - 1;
    }
    assert lines[0..] == lines;
  }

  /** The service's answer to a log query. */
  datatype SSHLog = SSHLog(logs: seq<SSHHistory>, totalCount: int, successfulCount: int, failedCount: int)

  /** The records of one file of the ordered list, under the request's filter. */
  function FileStream(file: FileItem, req: SearchSSHLog, read: string -> seq<string>,
                      infoMatch: string -> bool, area: string -> string): seq<SSHHistory>
  {
    EventsOf(CommandOutput(file, req, read, infoMatch), file.year, area)
  }

  /** The combined stream: the files' record streams in list order. */
  function Stream(files: seq<FileItem>, req: SearchSSHLog, read: string -> seq<string>,
                  infoMatch: string -> bool, area: string -> string): (es: seq<SSHHistory>)
    ensures forall k :: 0 <= k < |es| ==>
      es[k].address != [] && (es[k].status == StatusSuccess || es[k].status == StatusFailed)
  {
    if files == [] then []
    else
      Stream(files[..|files| - 1], req, read, infoMatch, area)
      + FileStream(files[|files| - 1], req, read, infoMatch, area)
  }

  /** LoadLog, from the ordered file list on: the page is the slice
      [(page - 1) * size, page * size) of the combined stream, and the counts
      are those of the whole stream. `read` gives a file's lines, `infoMatch`
      is the keyword grep and `area` the geo-IP lookup. */
  method LoadLog(req: SearchSSHLog, fileList: seq<FileItem>, read: string -> seq<string>,
                 infoMatch: string -> bool, area: string -> string)
    returns (data: SSHLog)
    ensures var s := Stream(fileList, req, read, infoMatch, area);
      && data.logs == Window(s, (req.page - 1) * req.pageSize, req.page * req.pageSize)
      && data.totalCount == |s|
      && data.failedCount == CountStatus(s, StatusFailed)
      && data.successfulCount == CountStatus(s, StatusSuccess)
  {
    data := SSHLog([], 0, 0, 0);
    var showCountFrom := (req.page - 1) * req.pageSize;
    var showCountTo := req.page * req.pageSize;
    ghost var from, to := showCountFrom, showCountTo;
    assert fileList[..0] == [];
    for i := 0 to |fileList|
      invariant Paged(Stream(fileList[..i], req, read, infoMatch, area), data, from, to,
                      showCountFrom, showCountTo)
    {
      var file := fileList[i];
      var out := CommandOutput(file, req, read, infoMatch);
      var dataItem, successCount, failedCount := LoadSSHData(out, showCountFrom, showCountTo, file.year, area);
      PagedStep(fileList, i, req, read, infoMatch, area, data, from, to, showCountFrom, showCountTo);
      data := data.(failedCount := data.failedCount + failedCount,
                    totalCount := data.totalCount + successCount + failedCount);
      showCountFrom := showCountFrom - (successCount + failedCount);
      showCountTo := showCountTo - (successCount + failedCount);
      data := data.(logs := data.logs + dataItem);
    }
    ghost var s := Stream(fileList, req, read, infoMatch, area);
    assert fileList[..|fileList|] == fileList;
    CountPartition(s);
    data := data.(successfulCount := data.totalCount - data.failedCount);
  }

  /** LoadLog's state after the files whose combined stream is `s`: the kept
      records are the window over `s`, the counters are those of `s`, and the
      window bounds have moved left by |s|. */
  ghost predicate Paged(s: seq<SSHHistory>, data: SSHLog, from: int, to: int,
                        showCountFrom: int, showCountTo: int)
  {
    && data.logs == Window(s, from, to)
    && data.totalCount == |s|
    && data.failedCount == CountStatus(s, StatusFailed)
    && showCountFrom == from - |s| && showCountTo == to - |s|
  }

  /** Processing file i with the shifted window extends the state by that
      file's stream. */
  lemma PagedStep(fileList: seq<FileItem>, i: int, req: SearchSSHLog, read: string -> seq<string>,
                  infoMatch: string -> bool, area: string -> string, data: SSHLog,
                  from: int, to: int, showCountFrom: int, showCountTo: int)
    requires 0 <= i < |fileList|
    requires Paged(Stream(fileList[..i], req, read, infoMatch, area), data, from, to,
                   showCountFrom, showCountTo)
    ensures var s := Stream(fileList[..i], req, read, infoMatch, area);
      var es := FileStream(fileList[i], req, read, infoMatch, area);
      && Stream(fileList[..i + 1], req, read, infoMatch, area) == s + es
      && Paged(s + es,
               data.(logs := data.logs + Window(es, showCountFrom, showCountTo),
                     totalCount := data.totalCount + |es|,
                     failedCount := data.failedCount + CountStatus(es, StatusFailed)),
               from, to, showCountFrom - |es|, showCountTo - |es|)
  {
    var s := Stream(fileList[..i], req, read, infoMatch, area);
    var es := FileStream(fileList[i], req, read, infoMatch, area);
    assert fileList[..i + 1][..i] == fileList[..i];
    WindowAppend(s, es, from, to);
    CountStatusAppend(s, es, StatusFailed);
  }

  /** Pages 1 to `count` of a stream, one after the other. */
  function Pages<T>(s: seq<T>, size: int, count: nat): seq<T> {
    if count == 0 then [] else Pages(s, size, count - 1) + Window(s, (count - 1) * size, count * size)
  }

  /** Consecutive pages neither overlap nor leave gaps: pages 1 to `count`
      together are exactly the first count * size records. */
  lemma {:induction false} PagesTile<T>(s: seq<T>, size: nat, count: nat)
    ensures Pages(s, size, count) == s[..Min(count * size, |s|)]
  {
    if count > 0 {
      PagesTile(s, size, count - 1);
      assert (count - 1) * size <= count * size by {
        assert count * size == (count - 1) * size + size;
      }
      var lo, hi := Min((count - 1) * size, |s|), Min(count * size, |s|);
      assert s[..lo] + s[lo..hi] == s[..hi];
    }
  }

  /** Enough pages reproduce the whole stream. */
  lemma PagesCoverStream<T>(s: seq<T>, size: nat, count: nat)
    requires count * size >= |s|
    ensures Pages(s, size, count) == s
  {
    PagesTile(s, size, count);
  }

  /** A page never holds more than `size` records. */
  lemma PageSizeBound<T>(s: seq<T>, page: int, size: nat)
    ensures |Window(s, (page - 1) * size, page * size)| <= size
  {
    assert page * size - (page - 1) * size == size;
  }

  /** Under the "failed" filter every record of the stream is a failure. */
  lemma {:induction false} FailedQueryOnlyFailures(files: seq<FileItem>, req: SearchSSHLog,
                                                   read: string -> seq<string>,
                                                   infoMatch: string -> bool, area: string -> string)
    requires FilterOf(req.status) == OnlyFailed
    ensures forall e :: e in Stream(files, req, read, infoMatch, area) ==> e.status == StatusFailed
  {
    if files != [] {
      var file := files[|files| - 1];
      FailedQueryOnlyFailures(files[..|files| - 1], req, read, infoMatch, area);
      var out := CommandOutput(file, req, read, infoMatch);
      if out.Lines? {
        FailedLinesOnlyFailures(out.lines, FamilyOf(file.name), file.year, area);
      }
    }
  }

  lemma {:induction false} FailedLinesOnlyFailures(lines: seq<string>, fam: Family, year: int,
                                                   area: string -> string)
    requires forall l :: l in lines ==> Selects(fam, OnlyFailed, l)
    ensures forall e :: e in FileEvents(lines, year, area) ==> e.status == StatusFailed
  {
    if lines != [] {
      FailedLinesOnlyFailures(lines[1..], fam, year, area);
      FailedFilterExcludesAccepted(fam, lines[0]);
    }
  }
}
