/** The lesson retriever: the last accepted decisions of the feedback log, as
    context lines for a reasoning prompt. */
module Retriever {
  import opened Common

  /** One line of the feedback log as the scan sees it: text that is not JSON
      (`Malformed`, skipped), a line whose processing raises anything else
      (`Unhandled`: a JSON value that is not an object, or a read error; it ends
      the scan), or a JSON object with its `decision` and `comments` entries. */
  datatype Entry =
    | Malformed
    | Unhandled
    | Record(decision: Option<string>, comments: Option<string>)

  const NoPastLessons: string := "No past lessons found."
  const NoRelevantLessons: string := "No relevant lessons found."
  const LessonPrefix: string := "- Accepted decision: "
  const Accepted: string := "accepted"

  /** The most lines the result holds. */
  const Window: nat := 5

  /** The entry is a record whose decision is "accepted". */
  predicate IsAccepted(e: Entry)
  {
    e.Record? && e.decision == Some(Accepted)
  }

  /** The line for an accepted record; absent comments print as Python's `None`. */
  function LessonLine(e: Entry): string
    requires e.Record?
  {
    LessonPrefix + match e.comments { case None => "None" case Some(c) => c }
  }

  /** The lines of the accepted records of a scanned log, in log order. */
  function Lessons(es: seq<Entry>): seq<string>
  {
    if |es| == 0 then []
    else
      var last := es[|es| - 1];
      Lessons(es[..|es| - 1]) + (if IsAccepted(last) then [LessonLine(last)] else [])
  }

  /** The part of the log the scan reaches: everything before the first unhandled line. */
  function Scanned(es: seq<Entry>): seq<Entry>
  {
    if |es| == 0 || es[0].Unhandled? then [] else [es[0]] + Scanned(es[1..])
  }

  /** `lessons[-5:]`: the last five lines, or all of them when there are fewer. */
  function LastLines(lines: seq<string>): seq<string>
  {
    if |lines| <= Window then lines else lines[|lines| - Window..]
  }

  /** `"\n".join(lines)`. */
  function Join(lines: seq<string>): string
  {
    if |lines| == 0 then ""
    else if |lines| == 1 then lines[0]
    else Join(lines[..|lines| - 1]) + "\n" + lines[|lines| - 1]
  }

  /** The text returned for a log file (`None` when the file does not exist). */
  function Retrieve(log: Option<seq<Entry>>): string
  {
    match log
    case None => NoPastLessons
    case Some(es) =>
      var lessons := Lessons(Scanned(es));
      if |lessons| == 0 then NoRelevantLessons else Join(LastLines(lessons))
  }

  /** `retrieve_lessons`: scan the log line by line, collect the accepted lines,
      skip the malformed ones, stop at an unhandled one, and join the last five. */
  method RetrieveLessons(log: Option<seq<Entry>>) returns (r: string)
    ensures r == Retrieve(log)
  {
    if log.None? {
      return NoPastLessons;
    }
    var lines := log.value;
    var lessons: seq<string> := [];
    var i := 0;
    while i < |lines|
      invariant 0 <= i <= |lines|
      invariant forall j :: 0 <= j < i ==> !lines[j].Unhandled?
      invariant lessons == Lessons(lines[..i])
    {
      assert lines[..i + 1][..i] == lines[..i];
      match lines[i] {
        case Malformed =>
        case Unhandled =>
          ScannedStopsAt(lines, i);
          break;
        case Record(decision, comments) =>
          if decision == Some(Accepted) {
            lessons := lessons + [LessonLine(lines[i])];
          }
      }
      i := i + 1;
    }
    if i == |lines| {
      ScannedAll(lines);
      assert lines[..i] == lines;
    }
    if |lessons| == 0 {
      return NoRelevantLessons;
    }
    return Join(LastLines(lessons));
  }

  /** Without unhandled lines the scan reaches the end of the log. */
  lemma {:induction false} ScannedAll(es: seq<Entry>)
    requires forall j :: 0 <= j < |es| ==> !es[j].Unhandled?
    ensures Scanned(es) == es
  {
    if |es| > 0 {
      ScannedAll(es[1..]);
    }
  }

  /** The scan stops at the first unhandled line. */
  lemma {:induction false} ScannedStopsAt(es: seq<Entry>, i: nat)
    requires i < |es| && es[i].Unhandled?
    requires forall j :: 0 <= j < i ==> !es[j].Unhandled?
    ensures Scanned(es) == es[..i]
  {
    if i > 0 {
      ScannedStopsAt(es[1..], i - 1);
      assert es[..i] == [es[0]] + es[1..][..i - 1];
    }
  }

  /** The indices of the accepted records, in increasing order. */
  ghost function AcceptedPositions(es: seq<Entry>): seq<nat>
  {
    if |es| == 0 then []
    else AcceptedPositions(es[..|es| - 1]) + (if IsAccepted(es[|es| - 1]) then [|es| - 1] else [])
  }

  /** The accepted positions are the indices of the accepted records, each once,
      in increasing order. */
  lemma {:induction false} AcceptedPositionsAreAccepted(es: seq<Entry>)
    ensures var idx := AcceptedPositions(es);
      && (forall k :: 0 <= k < |idx| ==> idx[k] < |es| && IsAccepted(es[idx[k]]))
      && (forall k, l :: 0 <= k < l < |idx| ==> idx[k] < idx[l])
      && (forall i :: 0 <= i < |es| && IsAccepted(es[i]) ==> i in idx)
  {
    if |es| > 0 {
      var n := |es| - 1;
      var pre := es[..n];
      AcceptedPositionsAreAccepted(pre);
      var idx0, idx := AcceptedPositions(pre), AcceptedPositions(es);
      assert forall k :: 0 <= k < |idx0| ==> idx0[k] < n && IsAccepted(pre[idx0[k]]);
      assert forall i :: 0 <= i < n && IsAccepted(pre[i]) ==> i in idx0;
      assert forall j :: 0 <= j < n ==> pre[j] == es[j];
      assert idx == idx0 + (if IsAccepted(es[n]) then [n] else []);
      forall k | 0 <= k < |idx|
        ensures idx[k] < |es| && IsAccepted(es[idx[k]])
      {
        if k < |idx0| {
          assert idx[k] == idx0[k] && pre[idx0[k]] == es[idx0[k]];
        }
      }
      forall k, l | 0 <= k < l < |idx|
        ensures idx[k] < idx[l]
      {
        if l < |idx0| {
          assert idx[k] == idx0[k] && idx[l] == idx0[l];
        } else {
          assert idx[k] == idx0[k] && idx[l] == n;
        }
      }
      forall i | 0 <= i < |es| && IsAccepted(es[i])
        ensures i in idx
      {
        if i < n {
          assert IsAccepted(pre[i]);
          assert i in idx0;
        }
      }
    }
  }

  /** The collected lines are those of the accepted positions, one each. */
  lemma {:induction false} LessonsFollowPositions(es: seq<Entry>)
    ensures var ls, idx := Lessons(es), AcceptedPositions(es);
      && |ls| == |idx|
      && (forall k :: 0 <= k < |idx| ==> idx[k] < |es| && IsAccepted(es[idx[k]]) && ls[k] == LessonLine(es[idx[k]]))
  {
    AcceptedPositionsAreAccepted(es);
    if |es| > 0 {
      var n := |es| - 1;
      var pre := es[..n];
      LessonsFollowPositions(pre);
      var ls0, idx0 := Lessons(pre), AcceptedPositions(pre);
      var ls, idx := Lessons(es), AcceptedPositions(es);
      assert |ls0| == |idx0|;
      assert forall k :: 0 <= k < |idx0| ==> idx0[k] < n && IsAccepted(pre[idx0[k]]) && ls0[k] == LessonLine(pre[idx0[k]]);
      assert idx == idx0 + (if IsAccepted(es[n]) then [n] else []);
      assert ls == ls0 + (if IsAccepted(es[n]) then [LessonLine(es[n])] else []);
      forall k | 0 <= k < |idx0|
        ensures ls[k] == LessonLine(es[idx[k]])
      {
        assert ls[k] == ls0[k] && idx[k] == idx0[k] && pre[idx0[k]] == es[idx0[k]];
      }
    }
  }

  /** The collected lines are those of the accepted records, one each, in log
      order: a record with any other decision contributes nothing. */
  lemma LessonsAreAcceptedRecords(es: seq<Entry>)
    ensures var ls, idx := Lessons(es), AcceptedPositions(es);
      && |ls| == |idx|
      && (forall k :: 0 <= k < |idx| ==> idx[k] < |es| && IsAccepted(es[idx[k]]) && ls[k] == LessonLine(es[idx[k]]))
      && (forall k, l :: 0 <= k < l < |idx| ==> idx[k] < idx[l])
      && (forall i :: 0 <= i < |es| && IsAccepted(es[i]) ==> i in idx)
  {
    AcceptedPositionsAreAccepted(es);
    LessonsFollowPositions(es);
  }

  /** Collecting over two parts of a log concatenates their lines. */
  lemma {:induction false} LessonsConcat(a: seq<Entry>, b: seq<Entry>)
    ensures Lessons(a + b) == Lessons(a) + Lessons(b)
  {
    if |b| == 0 {
      assert a + b == a;
    } else {
      var b' := b[..|b| - 1];
      assert (a + b)[..|a + b| - 1] == a + b';
      assert (a + b)[|a + b| - 1] == b[|b| - 1];
      LessonsConcat(a, b');
    }
  }

  /** The scan of a concatenation: the whole first part and the scan of the second
      when the first part has no unhandled line, the scan of the first part otherwise. */
  lemma {:induction false} ScannedConcat(a: seq<Entry>, b: seq<Entry>)
    ensures (forall j :: 0 <= j < |a| ==> !a[j].Unhandled?) ==> Scanned(a + b) == a + Scanned(b)
    ensures (exists j :: 0 <= j < |a| && a[j].Unhandled?) ==> Scanned(a + b) == Scanned(a)
  {
    if |a| == 0 {
      assert a + b == b;
    } else {
      assert (a + b)[1..] == a[1..] + b;
      ScannedConcat(a[1..], b);
      assert forall j :: 1 <= j < |a| ==> a[1..][j - 1] == a[j];
    }
  }

  /** A malformed line, or a record whose decision is not "accepted", changes
      nothing in the result, wherever it stands: it is skipped and the scan goes on. */
  lemma SkippedEntryChangesNothing(a: seq<Entry>, e: Entry, b: seq<Entry>)
    requires e.Malformed? || (e.Record? && e.decision != Some(Accepted))
    ensures Retrieve(Some(a + [e] + b)) == Retrieve(Some(a + b))
  {
    SkippedEntryCollectsNothing(a, e, b);
  }

  lemma SkippedEntryCollectsNothing(a: seq<Entry>, e: Entry, b: seq<Entry>)
    requires e.Malformed? || (e.Record? && e.decision != Some(Accepted))
    ensures Lessons(Scanned(a + [e] + b)) == Lessons(Scanned(a + b))
  {
    var eb := [e] + b;
    assert a + [e] + b == a + eb;
    ScannedConcat(a, eb);
    ScannedConcat(a, b);
    if forall j :: 0 <= j < |a| ==> !a[j].Unhandled? {
      ScannedConcat([e], b);
      assert Scanned(eb) == [e] + Scanned(b);
      assert [e][..0] == [];
      assert Lessons([e]) == [];
      calc {
        Lessons(Scanned(a + eb));
        Lessons(a + ([e] + Scanned(b)));
        { LessonsConcat(a, [e] + Scanned(b)); }
        Lessons(a) + Lessons([e] + Scanned(b));
        { LessonsConcat([e], Scanned(b)); }
        Lessons(a) + Lessons(Scanned(b));
        { LessonsConcat(a, Scanned(b)); }
        Lessons(a + Scanned(b));
      }
    }
  }

  /** An unhandled line ends the scan: no line after it is ever reported. (This
      is where the code departs from "malformed lines are never fatal".) */
  lemma UnhandledHidesTheRest(a: seq<Entry>, b: seq<Entry>)
    requires forall j :: 0 <= j < |a| ==> !a[j].Unhandled?
    ensures Retrieve(Some(a + [Unhandled] + b)) == Retrieve(Some(a))
  {
    ScannedStopsAt(a + [Unhandled] + b, |a|);
    assert (a + [Unhandled] + b)[..|a|] == a;
    ScannedAll(a);
  }

  /** A joined text begins with its first line. */
  lemma {:induction false} JoinStartsWithFirst(lines: seq<string>)
    requires |lines| > 0
    ensures |Join(lines)| >= |lines[0]| && Join(lines)[..|lines[0]|] == lines[0]
  {
    if |lines| > 1 {
      var init := lines[..|lines| - 1];
      JoinStartsWithFirst(init);
      assert Join(lines) == Join(init) + ("\n" + lines[|lines| - 1]);
    }
  }

  /** A joined text ends with its last line. */
  lemma JoinEndsWithLast(lines: seq<string>)
    requires |lines| > 0
    ensures var t, last := Join(lines), lines[|lines| - 1];
      |t| >= |last| && t[|t| - |last|..] == last
  {
  }

  /** The result is the no-log sentinel exactly when the log file is missing, the
      no-lessons sentinel exactly when the scan finds no accepted record, and never
      the empty string. */
  lemma RetrieveSentinels(log: Option<seq<Entry>>)
    ensures Retrieve(log) == NoPastLessons <==> log.None?
    ensures log.Some? ==> (Retrieve(log) == NoRelevantLessons <==> Lessons(Scanned(log.value)) == [])
    ensures Retrieve(log) != ""
  {
    if log.Some? {
      var lessons := Lessons(Scanned(log.value));
      if |lessons| > 0 {
        var w := LastLines(lessons);
        LessonsAreAcceptedRecords(Scanned(log.value));
        assert w[0] in lessons;
        assert w[0][..|LessonPrefix|] == LessonPrefix;
        JoinStartsWithFirst(w);
        assert Join(w)[0] == '-';
        assert NoPastLessons[0] == 'N' && NoRelevantLessons[0] == 'N';
      }
    }
  }

  /** Otherwise the result joins the last (at most five) collected lines, oldest first. */
  lemma RetrieveJoinsLastFive(es: seq<Entry>)
    requires Lessons(Scanned(es)) != []
    ensures var lessons := Lessons(Scanned(es));
      var w := LastLines(lessons);
      && Retrieve(Some(es)) == Join(w)
      && |w| == (if |lessons| < Window then |lessons| else Window)
      && w == lessons[|lessons| - |w|..]
  {
    var lessons := Lessons(Scanned(es));
    var w := LastLines(lessons);
    assert lessons[|lessons| - |w|..] == w;
  }

  /** Appending an accepted decision to a log without unhandled lines makes its
      comments the last line of the result. */
  lemma AcceptedFeedbackIsRetrieved(es: seq<Entry>, comments: string)
    requires forall j :: 0 <= j < |es| ==> !es[j].Unhandled?
    ensures var t, line := Retrieve(Some(es + [Record(Some(Accepted), Some(comments))])), LessonPrefix + comments;
      |t| >= |line| && t[|t| - |line|..] == line
  {
    var rec := Record(Some(Accepted), Some(comments));
    ScannedAll(es + [rec]);
    assert (es + [rec])[..|es|] == es;
    var lessons := Lessons(es + [rec]);
    assert lessons[|lessons| - 1] == LessonPrefix + comments;
    JoinEndsWithLast(LastLines(lessons));
  }
}
