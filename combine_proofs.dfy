/**
 * What the combination loop of combine.py guarantees about the output files
 * it writes: order, numbering, size accounting, the size limit, isolation of
 * oversized files, and flushing only when the next file does not fit.
 */
module CombineProofs {
  import opened Combine

  // ---------------------------------------------------------------------
  // Reference definitions
  // ---------------------------------------------------------------------

  /** The sum of the members' file sizes. */
  function TotalSize(ms: seq<Doc>): nat {
    if ms == [] then 0 else TotalSize(ms[..|ms| - 1]) + ms[|ms| - 1].size
  }

  /**
   * The number of members that were appended after some earlier member had
   * a non-zero size: each of these is preceded by a separator.
   */
  function SeparatorCount(ms: seq<Doc>): nat {
    if ms == [] then 0
    else SeparatorCount(ms[..|ms| - 1]) + (if TotalSize(ms[..|ms| - 1]) > 0 then 1 else 0)
  }

  /**
   * The members' contents in order, a separator before every member that
   * follows a member of non-zero size.
   */
  function Joined(ms: seq<Doc>): string {
    if ms == [] then ""
    else
      var init := ms[..|ms| - 1];
      Joined(init) + (if TotalSize(init) > 0 then Separator else "") + ms[|ms| - 1].content
  }

  /** The usual `sep.join(parts)`. */
  function Join(parts: seq<string>, sep: string): string {
    if parts == [] then ""
    else if |parts| == 1 then parts[0]
    else Join(parts[..|parts| - 1], sep) + sep + parts[|parts| - 1]
  }

  function Contents(ms: seq<Doc>): (r: seq<string>)
    ensures |r| == |ms|
    ensures forall k :: 0 <= k < |ms| ==> r[k] == ms[k].content
  {
    seq(|ms|, k requires 0 <= k < |ms| => ms[k].content)
  }

  /** A file read from disk: its text is empty exactly when its size is zero. */
  predicate WellFormed(d: Doc) {
    d.size == 0 <==> d.content == ""
  }

  predicate AllWellFormed(ds: seq<Doc>) {
    forall k :: 0 <= k < |ds| ==> WellFormed(ds[k])
  }

  /** Content and size are those of the members joined by separators. */
  predicate Accounted(ms: seq<Doc>, content: string, size: nat) {
    size == TotalSize(ms) + SeparatorBytes * SeparatorCount(ms) && content == Joined(ms)
  }

  /**
   * An output is within the limit, or all of its bytes come from its last
   * member and every other member is an empty file.
   */
  predicate WithinLimit(o: OutputFile, limit: nat) {
    o.members != [] &&
    (o.size <= limit ||
     (o.size == o.members[|o.members| - 1].size &&
      forall k :: 0 <= k < |o.members| - 1 ==> o.members[k].size == 0))
  }

  predicate GoodOutput(o: OutputFile, limit: nat) {
    o.content != "" && Accounted(o.members, o.content, o.size) && WithinLimit(o, limit)
  }

  /** Output files are numbered 1, 2, 3, ... in writing order. */
  predicate Numbered(w: seq<OutputFile>) {
    forall k :: 0 <= k < |w| ==> w[k].index == k + 1
  }

  /**
   * Every output but the last was closed because the first file of the next
   * output, with a separator, did not fit beside it.
   */
  predicate FlushedWhenFull(w: seq<OutputFile>, limit: nat) {
    forall k :: 0 < k < |w| ==>
      w[k].members != [] && w[k - 1].size + SeparatorBytes + w[k].members[0].size > limit
  }

  predicate NumberedState(s: State) {
    s.index == |s.written| + 1 && Numbered(s.written)
  }

  /** Every written output is numbered, good, and was closed only when full. */
  predicate WrittenOk(w: seq<OutputFile>, limit: nat) {
    Numbered(w) && (forall k :: 0 <= k < |w| ==> GoodOutput(w[k], limit)) && FlushedWhenFull(w, limit)
  }

  /** The output being accumulated agrees with its members and is within the limit unless it is one file. */
  predicate PendingOk(s: State, limit: nat) {
    && Accounted(s.members, s.content, s.size)
    && (s.content == "" <==> s.size == 0)
    && (s.size <= limit || |s.members| == 1)
  }

  /**
   * Whatever comes next cannot join the last written output: either that
   * output is over the limit, or the first member accumulated since did not
   * fit beside it.
   */
  predicate Frontier(s: State, limit: nat) {
    |s.written| > 0 ==>
      var last := s.written[|s.written| - 1];
      if s.members == [] then last.size > limit
      else last.size + SeparatorBytes + s.members[0].size > limit
  }

  /** The invariant of the combination loop between two files. */
  predicate Inv(s: State, limit: nat) {
    s.index == |s.written| + 1 && WrittenOk(s.written, limit) && PendingOk(s, limit) && Frontier(s, limit)
  }

  // ---------------------------------------------------------------------
  // Facts about the reference definitions
  // ---------------------------------------------------------------------

  lemma {:induction false} ZeroTotalSize(ms: seq<Doc>)
    requires TotalSize(ms) == 0
    ensures forall k :: 0 <= k < |ms| ==> ms[k].size == 0
  {
    if ms != [] {
      ZeroTotalSize(ms[..|ms| - 1]);
    }
  }

  lemma {:induction false} SeparatorNeedsBytes(ms: seq<Doc>)
    requires SeparatorCount(ms) > 0
    ensures TotalSize(ms) > 0
  {
    var init := ms[..|ms| - 1];
    if TotalSize(init) == 0 {
      SeparatorNeedsBytes(init);
    }
  }

  /**
   * When the first member has bytes, the content is exactly the members'
   * contents joined by the separator.
   */
  lemma {:induction false} JoinedIsSeparatorJoin(ms: seq<Doc>)
    requires ms != [] && ms[0].size > 0
    ensures Joined(ms) == Join(Contents(ms), Separator)
  {
    var init := ms[..|ms| - 1];
    if |ms| == 1 {
      assert init == [];
    } else {
      JoinedIsSeparatorJoin(init);
      assert Contents(ms)[..|ms| - 1] == Contents(init);
      assert TotalSize(init) > 0 by { PositiveTotalSize(init); }
    }
  }

  lemma {:induction false} PositiveTotalSize(ms: seq<Doc>)
    requires ms != [] && ms[0].size > 0
    ensures TotalSize(ms) > 0
  {
    if |ms| > 1 {
      PositiveTotalSize(ms[..|ms| - 1]);
    }
  }

  lemma SingleMember(d: Doc)
    ensures TotalSize([d]) == d.size && SeparatorCount([d]) == 0 && Joined([d]) == d.content
  {
    assert [d][..0] == [];
  }

  lemma Append(ms: seq<Doc>, d: Doc)
    ensures TotalSize(ms + [d]) == TotalSize(ms) + d.size
    ensures SeparatorCount(ms + [d]) == SeparatorCount(ms) + (if TotalSize(ms) > 0 then 1 else 0)
    ensures Joined(ms + [d]) == Joined(ms) + (if TotalSize(ms) > 0 then Separator else "") + d.content
  {
    assert (ms + [d])[..|ms|] == ms;
  }

  // ---------------------------------------------------------------------
  // The loop invariant
  // ---------------------------------------------------------------------

  lemma StartInv(limit: nat)
    ensures Inv(Start(), limit)
  {
  }

  lemma AppendOutput(w: seq<OutputFile>, o: OutputFile, limit: nat)
    requires WrittenOk(w, limit) && o.index == |w| + 1 && GoodOutput(o, limit)
    requires |w| > 0 ==> (o.members != [] && w[|w| - 1].size + SeparatorBytes + o.members[0].size > limit)
    ensures WrittenOk(w + [o], limit)
  {
    var w' := w + [o];
    forall k | 0 <= k < |w'| ensures w'[k].index == k + 1 && GoodOutput(w'[k], limit) {
      if k < |w| {
        assert w'[k] == w[k];
      }
    }
    forall k | 0 < k < |w'|
      ensures w'[k].members != [] && w'[k - 1].size + SeparatorBytes + w'[k].members[0].size > limit
    {
      if k < |w| {
        assert w'[k] == w[k] && w'[k - 1] == w[k - 1];
      } else {
        assert w'[k - 1] == w[|w| - 1];
      }
    }
  }

  /** Writing a non-empty accumulated output adds one good output file and keeps the written ones good. */
  lemma WriteKeepsWrittenOk(s: State, limit: nat)
    requires s.index == |s.written| + 1 && WrittenOk(s.written, limit)
    requires Accounted(s.members, s.content, s.size) && s.content != ""
    requires WithinLimit(OutputFile(s.index, s.members, s.content, s.size), limit)
    requires |s.written| > 0 ==>
               (s.written[|s.written| - 1].size + SeparatorBytes + s.members[0].size > limit)
    ensures var r := WriteStep(s);
      && r.index == |r.written| + 1 && WrittenOk(r.written, limit)
      && r.written == s.written + [OutputFile(s.index, s.members, s.content, s.size)]
  {
    AppendOutput(s.written, OutputFile(s.index, s.members, s.content, s.size), limit);
  }

  /** A file over the limit arriving while the accumulated output has no bytes: it is written at once. */
  lemma OversizedShape(s: State, d: Doc, limit: nat)
    requires d.size > limit && s.size == 0
    ensures OfferStep(s, d, limit) == WriteStep(s.(content := d.content, size := d.size, members := s.members + [d]))
  {
  }

  /** Writing an oversized file together with the empty files before it keeps the invariant. */
  lemma OversizedKeepsInv(s: State, d: Doc, limit: nat)
    requires Inv(s, limit) && WellFormed(d)
    requires d.size > limit && s.size == 0
    ensures Inv(WriteStep(s.(content := d.content, size := d.size, members := s.members + [d])), limit)
  {
    var t := s.(content := d.content, size := d.size, members := s.members + [d]);
    var o := OutputFile(t.index, t.members, t.content, t.size);
    assert Accounted(t.members, t.content, t.size) by {
      Append(s.members, d);
      assert TotalSize(s.members) == 0 && SeparatorCount(s.members) == 0;
    }
    assert WithinLimit(o, limit) by {
      ZeroTotalSize(s.members);
      assert forall k :: 0 <= k < |s.members| ==> t.members[k] == s.members[k];
    }
    assert |t.written| > 0 ==> t.written[|t.written| - 1].size + SeparatorBytes + t.members[0].size > limit by {
      if |s.written| > 0 && s.members != [] {
        assert t.members[0] == s.members[0];
      }
    }
    WriteKeepsWrittenOk(t, limit);
    var r := WriteStep(t);
    assert r.members == [] && r.content == "" && r.size == 0;
    assert r.written[|r.written| - 1] == o;
  }

  /** The next file does not fit: the accumulated output is written and the file starts the next one. */
  lemma FlushShape(s: State, d: Doc, limit: nat)
    requires s.content != "" && s.size > 0 && s.size + SeparatorBytes + d.size > limit
    ensures OfferStep(s, d, limit) == WriteStep(s).(content := d.content, size := d.size, members := [d])
  {
  }

  lemma FlushKeepsInv(s: State, d: Doc, limit: nat)
    requires Inv(s, limit) && WellFormed(d)
    requires s.size > 0 && s.size + SeparatorBytes + d.size > limit
    ensures Inv(OfferStep(s, d, limit), limit)
  {
    assert WithinLimit(OutputFile(s.index, s.members, s.content, s.size), limit) by {
      assert s.members != [];
      if |s.members| == 1 {
        assert s.members == [s.members[0]];
        SingleMember(s.members[0]);
      }
    }
    WriteKeepsWrittenOk(s, limit);
    FlushShape(s, d, limit);
    SingleMember(d);
  }

  /** The next file fits after a separator. */
  lemma AppendKeepsInv(s: State, d: Doc, limit: nat)
    requires Inv(s, limit) && WellFormed(d)
    requires s.size > 0 && s.size + SeparatorBytes + d.size <= limit
    ensures Inv(OfferStep(s, d, limit), limit)
  {
    var r := OfferStep(s, d, limit);
    Append(s.members, d);
    assert TotalSize(s.members) > 0 by {
      if TotalSize(s.members) == 0 {
        SeparatorNeedsBytes(s.members);
      }
    }
    assert s.members != [];
    assert r.members[0] == s.members[0];
  }

  /** The next file joins an accumulated output that has no bytes yet. */
  lemma FirstBytesKeepInv(s: State, d: Doc, limit: nat)
    requires Inv(s, limit) && WellFormed(d)
    requires d.size <= limit && s.size == 0
    ensures Inv(OfferStep(s, d, limit), limit)
  {
    var r := OfferStep(s, d, limit);
    Append(s.members, d);
    assert TotalSize(s.members) == 0 && SeparatorCount(s.members) == 0;
    if s.members != [] {
      assert r.members[0] == s.members[0];
    }
  }

  lemma OfferStepKeepsInv(s: State, d: Doc, limit: nat)
    requires Inv(s, limit) && WellFormed(d)
    ensures Inv(OfferStep(s, d, limit), limit)
  {
    if d.size > limit && s.size == 0 {
      OversizedKeepsInv(s, d, limit);
      OversizedShape(s, d, limit);
    } else if s.size > 0 && s.size + SeparatorBytes + d.size > limit {
      FlushKeepsInv(s, d, limit);
    } else if s.size > 0 {
      AppendKeepsInv(s, d, limit);
    } else {
      FirstBytesKeepInv(s, d, limit);
    }
  }

  lemma {:induction false} OfferAllKeepsInv(s: State, docs: seq<Doc>, limit: nat)
    requires Inv(s, limit) && AllWellFormed(docs)
    ensures Inv(OfferAll(s, docs, limit), limit)
  {
    if docs != [] {
      var init := docs[..|docs| - 1];
      OfferAllKeepsInv(s, init, limit);
      OfferStepKeepsInv(OfferAll(s, init, limit), docs[|docs| - 1], limit);
    }
  }

  /** The final write of a run keeps every written output good. */
  lemma {:induction false} CombinedOutputsGood(docs: seq<Doc>, limit: nat)
    requires AllWellFormed(docs)
    ensures var r := Combined(docs, limit);
      && r.index == |r.written| + 1 && WrittenOk(r.written, limit)
      && r.content == "" && r.size == 0 && Accounted(r.members, r.content, r.size)
  {
    var s := OfferAll(Start(), docs, limit);
    StartInv(limit);
    OfferAllKeepsInv(Start(), docs, limit);
    if s.content != "" {
      assert s.members != [];
      if |s.members| == 1 {
        assert s.members == [s.members[0]];
        SingleMember(s.members[0]);
      }
      WriteKeepsWrittenOk(s, limit);
    }
  }

  lemma {:induction false} MemberSizeBound(ms: seq<Doc>, j: nat)
    requires j < |ms|
    ensures ms[j].size <= TotalSize(ms)
  {
    if j < |ms| - 1 {
      MemberSizeBound(ms[..|ms| - 1], j);
    }
  }

  lemma OfferStepNumbered(s: State, d: Doc, limit: nat)
    requires NumberedState(s)
    ensures NumberedState(OfferStep(s, d, limit))
  {
    if d.size > limit && s.size == 0 {
      WriteStepNumbered(s.(content := d.content, size := d.size, members := s.members + [d]));
    } else if s.size > 0 && s.size + d.size + SeparatorBytes > limit {
      WriteStepNumbered(s);
    }
  }

  lemma WriteStepNumbered(s: State)
    requires NumberedState(s)
    ensures NumberedState(WriteStep(s))
  {
  }

  lemma {:induction false} OfferAllNumbered(s: State, docs: seq<Doc>, limit: nat)
    requires NumberedState(s)
    ensures NumberedState(OfferAll(s, docs, limit))
  {
    if docs != [] {
      OfferAllNumbered(s, docs[..|docs| - 1], limit);
      OfferStepNumbered(OfferAll(s, docs[..|docs| - 1], limit), docs[|docs| - 1], limit);
    }
  }

  // ---------------------------------------------------------------------
  // What a whole run guarantees
  // ---------------------------------------------------------------------

  /** Output files are numbered consecutively from 1, whatever the input. */
  lemma CombinedNumbersOutputs(docs: seq<Doc>, limit: nat)
    ensures forall k :: 0 <= k < |Combined(docs, limit).written| ==> Combined(docs, limit).written[k].index == k + 1
  {
    var s := OfferAll(Start(), docs, limit);
    OfferAllNumbered(Start(), docs, limit);
    WriteStepNumbered(s);
    assert Combined(docs, limit) == WriteStep(s);
  }

  /**
   * Every file is listed in some output, in input order, except a trailing
   * run of empty files, which no output lists.
   */
  lemma CombinedListsEveryNonEmptyFile(docs: seq<Doc>, limit: nat)
    requires AllWellFormed(docs)
    ensures var r := Combined(docs, limit);
      && |r.members| <= |docs|
      && Members(r.written) == docs[..|docs| - |r.members|]
      && (forall k :: |docs| - |r.members| <= k < |docs| ==> docs[k].size == 0)
      && (docs != [] && docs[|docs| - 1].size > 0 ==> Members(r.written) == docs)
  {
    var r := Combined(docs, limit);
    var listed := Members(r.written);
    assert listed + r.members == docs;
    assert TotalSize(r.members) == 0 by {
      CombinedOutputsGood(docs, limit);
    }
    ZeroTotalSize(r.members);
    var n := |listed|;
    assert listed == docs[..n] && r.members == docs[n..];
    forall k | n <= k < |docs| ensures docs[k].size == 0 {
      assert docs[k] == r.members[k - n];
    }
  }

  /**
   * The content of every output is its members' contents joined by the
   * separator, and its size is theirs plus one separator per join.
   */
  lemma CombinedAccounting(docs: seq<Doc>, limit: nat)
    requires AllWellFormed(docs)
    ensures forall o :: o in Combined(docs, limit).written ==>
      && o.content != "" && o.members != []
      && o.content == Joined(o.members)
      && o.size == TotalSize(o.members) + SeparatorBytes * SeparatorCount(o.members)
  {
    CombinedOutputsGood(docs, limit);
  }

  /**
   * Every output is within the limit unless all its bytes come from its
   * last member, every other member being an empty file.
   */
  lemma CombinedWithinLimit(docs: seq<Doc>, limit: nat)
    requires AllWellFormed(docs)
    ensures forall o :: o in Combined(docs, limit).written ==> WithinLimit(o, limit)
  {
    CombinedOutputsGood(docs, limit);
  }

  /**
   * A file over the limit is the last member of its output, which holds its
   * bytes only: any other member is an empty file.
   */
  lemma OversizedFileIsolated(docs: seq<Doc>, limit: nat, o: OutputFile, j: nat)
    requires AllWellFormed(docs)
    requires o in Combined(docs, limit).written && j < |o.members| && o.members[j].size > limit
    ensures j == |o.members| - 1 && o.size == o.members[j].size
    ensures forall k :: 0 <= k < |o.members| && k != j ==> o.members[k].size == 0
  {
    CombinedOutputsGood(docs, limit);
    assert GoodOutput(o, limit);
    MemberSizeBound(o.members, j);
  }

  /** An output holding two files that both have bytes is within the limit. */
  lemma MultiMemberOutputFits(docs: seq<Doc>, limit: nat, o: OutputFile, i: nat, j: nat)
    requires AllWellFormed(docs)
    requires o in Combined(docs, limit).written
    requires i < j < |o.members| && o.members[i].size > 0 && o.members[j].size > 0
    ensures o.size <= limit
  {
    CombinedOutputsGood(docs, limit);
    assert GoodOutput(o, limit);
  }

  /**
   * An output is closed before the last one only when the first file of the
   * next output, with its separator, would have taken it over the limit.
   */
  lemma CombinedFlushesOnlyWhenFull(docs: seq<Doc>, limit: nat)
    requires AllWellFormed(docs)
    ensures var w := Combined(docs, limit).written;
      forall k :: 0 < k < |w| ==>
        w[k].members != [] && w[k - 1].size + SeparatorBytes + w[k].members[0].size > limit
  {
    CombinedOutputsGood(docs, limit);
  }

  /** A second final write writes nothing more. */
  lemma FinishIsIdempotent(s: State)
    ensures WriteStep(WriteStep(s)) == WriteStep(s)
  {
  }

  /** No input files, no output files. */
  lemma CombinedEmptyInput(limit: nat)
    ensures Combined([], limit).written == []
  {
  }

  /** A run over two files, step by step. */
  lemma CombinedTwo(a: Doc, b: Doc, limit: nat)
    ensures Combined([a, b], limit) == WriteStep(OfferStep(OfferStep(Start(), a, limit), b, limit))
  {
    OfferAllExtend(Start(), [a, b], 0, limit);
    OfferAllExtend(Start(), [a, b], 1, limit);
    assert [a, b][..2] == [a, b];
  }

  /** A run over three files, step by step. */
  lemma CombinedThree(a: Doc, b: Doc, c: Doc, limit: nat)
    ensures Combined([a, b, c], limit)
      == WriteStep(OfferStep(OfferStep(OfferStep(Start(), a, limit), b, limit), c, limit))
  {
    OfferAllExtend(Start(), [a, b, c], 0, limit);
    OfferAllExtend(Start(), [a, b, c], 1, limit);
    OfferAllExtend(Start(), [a, b, c], 2, limit);
    assert [a, b, c][..3] == [a, b, c];
  }

  /**
   * An empty file followed by a file over the limit: both are listed in one
   * output, so an output with two members can exceed the limit.
   */
  lemma EmptyFileJoinsOversizedOutput()
    ensures var empty, big := Doc("a.md", 0, ""), Doc("b.md", 2, "xy");
      Combined([empty, big], 1).written == [OutputFile(1, [empty, big], "xy", 2)]
  {
    var empty, big := Doc("a.md", 0, ""), Doc("b.md", 2, "xy");
    var s1 := OfferStep(Start(), empty, 1);
    assert s1 == State(1, "", 0, [empty], []);
    var t := State(1, "xy", 2, [empty, big], []);
    assert s1.(content := big.content, size := big.size, members := s1.members + [big]) == t;
    assert t.content != "";
    var s2 := OfferStep(s1, big, 1);
    assert s2 == WriteStep(t);
    assert s2 == State(2, "", 0, [], [OutputFile(1, [empty, big], "xy", 2)]);
    CombinedTwo(empty, big, 1);
  }

  /** Three 10-byte files, limit 30: the first two fit (10 + 7 + 10), the third does not. */
  lemma SeparatorIsCounted()
    ensures var a, b, c := Doc("a.md", 10, "a"), Doc("b.md", 10, "b"), Doc("c.md", 10, "c");
      Combined([a, b, c], 30).written
        == [OutputFile(1, [a, b], "a" + Separator + "b", 27), OutputFile(2, [c], "c", 10)]
  {
    var a, b, c := Doc("a.md", 10, "a"), Doc("b.md", 10, "b"), Doc("c.md", 10, "c");
    var s1 := OfferStep(Start(), a, 30);
    assert s1 == State(1, "a", 10, [a], []);
    var s2 := OfferStep(s1, b, 30);
    assert s2 == State(1, "a" + Separator + "b", 27, [a, b], []);
    var w := WriteStep(s2);
    assert w == State(2, "", 0, [], [OutputFile(1, [a, b], "a" + Separator + "b", 27)]);
    var s3 := OfferStep(s2, c, 30);
    assert s3 == w.(content := "" + "c", size := 10, members := [c]);
    assert "" + "c" == "c";
    CombinedThree(a, b, c, 30);
  }

  /** A trailing empty file that joins an output with bytes is listed, after a separator. */
  lemma TrailingEmptyFileJoins()
    ensures var a, e := Doc("a.md", 10, "a"), Doc("e.md", 0, "");
      Combined([a, e], 30).written == [OutputFile(1, [a, e], "a" + Separator, 17)]
  {
    var a, e := Doc("a.md", 10, "a"), Doc("e.md", 0, "");
    var s1 := OfferStep(Start(), a, 30);
    assert s1 == State(1, "a", 10, [a], []);
    var s2 := OfferStep(s1, e, 30);
    assert "a" + Separator + "" == "a" + Separator;
    assert s2 == State(1, "a" + Separator, 17, [a, e], []);
    CombinedTwo(a, e, 30);
  }

  /** A total exactly at the limit fits: 10 + 7 + 13 == 30 gives one output. */
  lemma TotalAtLimitFits()
    ensures var a, b := Doc("a.md", 10, "a"), Doc("b.md", 13, "b");
      Combined([a, b], 30).written == [OutputFile(1, [a, b], "a" + Separator + "b", 30)]
  {
    var a, b := Doc("a.md", 10, "a"), Doc("b.md", 13, "b");
    var s1 := OfferStep(Start(), a, 30);
    assert s1 == State(1, "a", 10, [a], []);
    var s2 := OfferStep(s1, b, 30);
    assert s2 == State(1, "a" + Separator + "b", 30, [a, b], []);
    CombinedTwo(a, b, 30);
  }
}
