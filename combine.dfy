/**
 * The size-bounded Markdown combiner of combine.py: the `.md` files of a
 * directory, sorted by name, are packed greedily and in order into numbered
 * output files whose size stays within a byte limit.
 */
module Combine {
  import opened Text

  /** One input file: its name, its size on disk in bytes, and the text read from it. */
  datatype Doc = Doc(name: string, size: nat, content: string)

  /** One output file: its number, the files it holds, the text written and its size in bytes. */
  datatype OutputFile = OutputFile(index: nat, members: seq<Doc>, content: string, size: nat)

  /**
   * The state of the combination loop: the next output number, the
   * content, size and member list of the output being accumulated, and the
   * output files written so far.
   */
  datatype State = State(index: nat, content: string, size: nat, members: seq<Doc>, written: seq<OutputFile>)

  const Separator: string := "\n\n---\n\n"

  /** The separator's length in bytes: it is ASCII, so one byte per character. */
  const SeparatorBytes: nat := |Separator|

  /** 5 MB, the configured maximum size of an output file. */
  const MaxSizeBytes: nat := 5 * 1024 * 1024

  /** The members of all written output files, in writing order. */
  function Members(w: seq<OutputFile>): seq<Doc> {
    if w == [] then [] else Members(w[..|w| - 1]) + w[|w| - 1].members
  }

  function Names(ds: seq<Doc>): (r: seq<string>)
    ensures |r| == |ds|
    ensures forall k :: 0 <= k < |ds| ==> r[k] == ds[k].name
  {
    seq(|ds|, k requires 0 <= k < |ds| => ds[k].name)
  }

  // ---------------------------------------------------------------------
  // The combination loop as a function of its state
  // ---------------------------------------------------------------------

  function Start(): State {
    State(1, "", 0, [], [])
  }

  /**
   * `write_output_file`: an output with no content is not written and leaves
   * the state as it is; otherwise the output is written under the current
   * number and the accumulation restarts empty.
   */
  function WriteStep(s: State): (r: State)
    ensures Members(r.written) + r.members == Members(s.written) + s.members
    ensures s.content == "" ==> r == s
    ensures s.content != "" ==> r.content == "" && r.size == 0 && r.members == []
                                && r.index == s.index + 1 && |r.written| == |s.written| + 1
  {
    if s.content == "" then s
    else State(s.index + 1, "", 0, [], s.written + [OutputFile(s.index, s.members, s.content, s.size)])
  }

  /** One iteration of the loop over the input files. */
  function OfferStep(s: State, d: Doc, limit: nat): (r: State)
    ensures Members(r.written) + r.members == Members(s.written) + s.members + [d]
  {
    if d.size > limit && s.size == 0 then
      WriteStep(s.(content := d.content, size := d.size, members := s.members + [d]))
    else
      var sizeToAdd := d.size + (if s.size > 0 then SeparatorBytes else 0);
      var t := if s.size > 0 && s.size + sizeToAdd > limit then WriteStep(s) else s;
      if t.size > 0 then
        t.(content := t.content + Separator + d.content, size := t.size + SeparatorBytes + d.size,
           members := t.members + [d])
      else
        t.(content := t.content + d.content, size := t.size + d.size, members := t.members + [d])
  }

  /** The loop over the input files, in order. */
  function OfferAll(s: State, docs: seq<Doc>, limit: nat): (r: State)
    ensures Members(r.written) + r.members == Members(s.written) + s.members + docs
  {
    if docs == [] then s
    else OfferStep(OfferAll(s, docs[..|docs| - 1], limit), docs[|docs| - 1], limit)
  }

  /**
   * The whole run: every file offered, then a final write. The members of
   * the written files followed by whatever was left unwritten are the input,
   * in order.
   */
  function Combined(docs: seq<Doc>, limit: nat): (r: State)
    ensures Members(r.written) + r.members == docs
  {
    WriteStep(OfferAll(Start(), docs, limit))
  }

  lemma OfferAllExtend(s: State, docs: seq<Doc>, i: nat, limit: nat)
    requires i < |docs|
    ensures OfferAll(s, docs[..i + 1], limit) == OfferStep(OfferAll(s, docs[..i], limit), docs[i], limit)
  {
    assert docs[..i + 1][..i] == docs[..i];
  }

  // ---------------------------------------------------------------------
  // The combination loop as the source runs it, on mutable state
  // ---------------------------------------------------------------------

  /** The `nonlocal` variables of `combine_md_files` and the files it has written. */
  class Combiner {
    const limit: nat
    var outputIndex: nat
    var content: string
    var size: nat
    var members: seq<Doc>
    var written: seq<OutputFile>

    function Model(): State
      reads this
    {
      State(outputIndex, content, size, members, written)
    }

    constructor (limit: nat)
      ensures this.limit == limit && Model() == Start()
    {
      this.limit := limit;
      outputIndex := 1;
      content := "";
      size := 0;
      members := [];
      written := [];
    }

    method WriteOutputFile()
      modifies this
      ensures Model() == WriteStep(old(Model()))
    {
      if content == "" {
        return;
      }
      written := written + [OutputFile(outputIndex, members, content, size)];
      outputIndex := outputIndex + 1;
      content := "";
      size := 0;
      members := [];
    }

    method Offer(d: Doc)
      modifies this
      ensures Model() == OfferStep(old(Model()), d, limit)
    {
      var sizeToAdd := d.size;
      if size > 0 {
        sizeToAdd := sizeToAdd + SeparatorBytes;
      }
      if d.size > limit && size == 0 {
        content := d.content;
        size := d.size;
        members := members + [d];
        WriteOutputFile();
        return;
      }
      if size > 0 && size + sizeToAdd > limit {
        WriteOutputFile();
      }
      if size > 0 {
        content := content + Separator;
        size := size + SeparatorBytes;
      }
      content := content + d.content;
      size := size + d.size;
      members := members + [d];
    }
  }

  // ---------------------------------------------------------------------
  // Selecting the input files
  // ---------------------------------------------------------------------

  /** A directory entry, with the size and text of the file when it is one. */
  datatype DirEntry = DirEntry(name: string, isFile: bool, size: nat, content: string)

  predicate IsMarkdownFile(e: DirEntry) {
    e.isFile && EndsWithIgnoringCase(e.name, ".md")
  }

  function AsDoc(e: DirEntry): Doc {
    Doc(e.name, e.size, e.content)
  }

  /**
   * `idx` holds, in increasing order, exactly the positions of the Markdown
   * files among `entries`, and `r` holds those files, position by position.
   */
  predicate PicksMarkdown(entries: seq<DirEntry>, r: seq<Doc>, idx: seq<nat>) {
    && |idx| == |r|
    && (forall k :: 0 <= k < |idx| ==>
          idx[k] < |entries| && IsMarkdownFile(entries[idx[k]]) && r[k] == AsDoc(entries[idx[k]]))
    && (forall k, l :: 0 <= k < l < |idx| ==> idx[k] < idx[l])
    && (forall i :: 0 <= i < |entries| && IsMarkdownFile(entries[i]) ==> i in idx)
  }

  lemma PicksMarkdownExtend(init: seq<DirEntry>, e: DirEntry, rest: seq<Doc>, idx: seq<nat>)
    requires PicksMarkdown(init, rest, idx)
    ensures IsMarkdownFile(e) ==> PicksMarkdown(init + [e], rest + [AsDoc(e)], idx + [|init|])
    ensures !IsMarkdownFile(e) ==> PicksMarkdown(init + [e], rest, idx)
  {
    var entries := init + [e];
    assert forall i :: 0 <= i < |init| ==> entries[i] == init[i];
    if IsMarkdownFile(e) {
      var r, idx2 := rest + [AsDoc(e)], idx + [|init|];
      assert forall k :: 0 <= k < |idx| ==> idx2[k] == idx[k] && r[k] == rest[k];
      assert forall i :: 0 <= i < |entries| && IsMarkdownFile(entries[i]) ==> i in idx2 by {
        forall i | 0 <= i < |entries| && IsMarkdownFile(entries[i]) ensures i in idx2 {
          if i < |init| {
            var k :| 0 <= k < |idx| && idx[k] == i;
            assert idx2[k] == i;
          } else {
            assert idx2[|idx|] == i;
          }
        }
      }
    }
  }

  /**
   * The entries that are files named `*.md` in any case, in listing order:
   * each of them once, and nothing else.
   */
  function MarkdownFiles(entries: seq<DirEntry>): (r: seq<Doc>)
    ensures |r| <= |entries|
    ensures forall d :: d in r <==> exists e :: e in entries && IsMarkdownFile(e) && d == AsDoc(e)
    ensures exists idx :: PicksMarkdown(entries, r, idx)
  {
    if entries == [] then
      assert PicksMarkdown(entries, [], []);
      []
    else
      var init := entries[..|entries| - 1];
      var rest := MarkdownFiles(init);
      var e := entries[|entries| - 1];
      assert entries == init + [e];
      var r := if IsMarkdownFile(e) then rest + [AsDoc(e)] else rest;
      assert exists idx :: PicksMarkdown(entries, r, idx) by {
        var idx :| PicksMarkdown(init, rest, idx);
        PicksMarkdownExtend(init, e, rest, idx);
      }
      r
  }

  predicate SortedByName(ds: seq<Doc>) {
    forall k :: 0 < k < |ds| ==> LexLe(ds[k - 1].name, ds[k].name)
  }

  function InsertByName(d: Doc, ds: seq<Doc>): (r: seq<Doc>)
    requires SortedByName(ds)
    ensures SortedByName(r)
    ensures multiset(r) == multiset(ds) + multiset{d}
    ensures |r| == |ds| + 1 && (r[0] == d || (ds != [] && r[0] == ds[0]))
  {
    if ds == [] then [d]
    else if LexLe(d.name, ds[0].name) then [d] + ds
    else
      LexLeTotal(d.name, ds[0].name);
      assert ds == [ds[0]] + ds[1..];
      [ds[0]] + InsertByName(d, ds[1..])
  }

  /** `list.sort()` on the file names: a permutation in ascending name order. */
  function SortByName(ds: seq<Doc>): (r: seq<Doc>)
    ensures SortedByName(r)
    ensures multiset(r) == multiset(ds)
  {
    if ds == [] then []
    else
      assert ds == [ds[0]] + ds[1..];
      InsertByName(ds[0], SortByName(ds[1..]))
  }

  /**
   * `combine_md_files` from the directory listing on: select and sort the
   * Markdown files, return early when there are none, offer each file in
   * turn, and write what is left at the end.
   */
  method CombineMdFiles(entries: seq<DirEntry>, limit: nat) returns (written: seq<OutputFile>)
    ensures written == Combined(SortByName(MarkdownFiles(entries)), limit).written
  {
    var allFiles := SortByName(MarkdownFiles(entries));
    if allFiles == [] {
      return [];
    }
    var c := new Combiner(limit);
    for i := 0 to |allFiles|
      invariant c.limit == limit
      invariant c.Model() == OfferAll(Start(), allFiles[..i], limit)
    {
      c.Offer(allFiles[i]);
      OfferAllExtend(Start(), allFiles, i, limit);
    }
    assert allFiles[..|allFiles|] == allFiles;
    c.WriteOutputFile();
    written := c.written;
  }
}
