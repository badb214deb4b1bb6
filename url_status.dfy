/**
 * The URL progress bookkeeping of download.py: an insertion-ordered table
 * from URL to status, read from the sources text, from which chunks of URLs
 * are chosen for crawling and then marked complete.
 */
module UrlStatus {
  import opened Text

  /** The three statuses a URL goes through: "not started", "in progress", "complete". */
  datatype Status = NotStarted | InProgress | Complete

  /** One key-value pair of the status dict. */
  datatype UrlEntry = UrlEntry(url: string, status: Status)

  /** The dict's keys in insertion order. */
  function Keys(t: seq<UrlEntry>): (r: seq<string>)
    ensures |r| == |t|
    ensures forall i :: 0 <= i < |t| ==> r[i] == t[i].url
  {
    seq(|t|, i requires 0 <= i < |t| => t[i].url)
  }

  /** No key occurs twice, as in a dict. */
  predicate UniqueKeys(t: seq<UrlEntry>) {
    forall i, j :: 0 <= i < j < |t| ==> t[i].url != t[j].url
  }

  /** The position of a key in the dict. */
  function IndexOf(t: seq<UrlEntry>, url: string): (i: nat)
    requires url in Keys(t)
    ensures i < |t| && t[i].url == url
  {
    if t[0].url == url then 0
    else
      assert url in Keys(t[1..]) by {
        var k :| 0 <= k < |t| && Keys(t)[k] == url;
        assert Keys(t[1..])[k - 1] == url;
      }
      1 + IndexOf(t[1..], url)
  }

  /**
   * `d[url] = status`: an existing key keeps its place and takes the new
   * status; a new key goes at the end.
   */
  function Assign(t: seq<UrlEntry>, url: string, status: Status): (r: seq<UrlEntry>)
    requires UniqueKeys(t)
    ensures UniqueKeys(r)
    ensures url in Keys(t) ==> |r| == |t|
    ensures url !in Keys(t) ==> |r| == |t| + 1 && r[|t|] == UrlEntry(url, status)
    ensures forall i :: 0 <= i < |t| ==> r[i] == (if t[i].url == url then UrlEntry(url, status) else t[i])
  {
    if url in Keys(t) then t[IndexOf(t, url) := UrlEntry(url, status)]
    else t + [UrlEntry(url, status)]
  }

  lemma AssignKeys(t: seq<UrlEntry>, url: string, status: Status)
    requires UniqueKeys(t)
    ensures Keys(Assign(t, url, status)) == if url in Keys(t) then Keys(t) else Keys(t) + [url]
  {
  }

  // ---------------------------------------------------------------------
  // Reading the sources text
  // ---------------------------------------------------------------------

  predicate IsHttpUrl(url: string) {
    StartsWith(url, "http://") || StartsWith(url, "https://")
  }

  /** The stripped lines that are http(s) URLs, in order, repeats included. */
  function ValidUrls(lines: seq<string>): seq<string> {
    if lines == [] then []
    else
      var url := Strip(lines[|lines| - 1]);
      ValidUrls(lines[..|lines| - 1]) + (if IsHttpUrl(url) then [url] else [])
  }

  /** The first occurrence of each element, in order. */
  function Dedup(s: seq<string>): seq<string> {
    if s == [] then []
    else
      var init := s[..|s| - 1];
      if s[|s| - 1] in init then Dedup(init) else Dedup(init) + [s[|s| - 1]]
  }

  lemma {:induction false} DedupSameElements(s: seq<string>)
    ensures forall x :: x in Dedup(s) <==> x in s
  {
    if s != [] {
      DedupSameElements(s[..|s| - 1]);
      assert s == s[..|s| - 1] + [s[|s| - 1]];
    }
  }

  lemma {:induction false} DedupNoRepeats(s: seq<string>)
    ensures forall i, j :: 0 <= i < j < |Dedup(s)| ==> Dedup(s)[i] != Dedup(s)[j]
  {
    if s != [] {
      DedupNoRepeats(s[..|s| - 1]);
      DedupSameElements(s[..|s| - 1]);
    }
  }

  /** Every line with surrounding whitespace removed. */
  function Stripped(lines: seq<string>): (r: seq<string>)
    ensures |r| == |lines|
    ensures forall i :: 0 <= i < |lines| ==> r[i] == Strip(lines[i])
  {
    seq(|lines|, i requires 0 <= i < |lines| => Strip(lines[i]))
  }

  /** The URLs kept are exactly the stripped lines that are http(s) URLs. */
  lemma {:induction false} ValidUrlsElement(lines: seq<string>, u: string)
    ensures u in ValidUrls(lines) <==> IsHttpUrl(u) && u in Stripped(lines)
  {
    if lines != [] {
      var init := lines[..|lines| - 1];
      var last := Strip(lines[|lines| - 1]);
      ValidUrlsElement(init, u);
      assert ValidUrls(lines) == ValidUrls(init) + (if IsHttpUrl(last) then [last] else []);
      assert Stripped(lines) == Stripped(init) + [last];
    }
  }

  /** Python's `for line in file: ... url_dict[url] = JSON_NOT_STARTED`, as a function of the lines read. */
  function ParseSources(lines: seq<string>): (t: seq<UrlEntry>)
    ensures UniqueKeys(t)
  {
    if lines == [] then []
    else
      var t := ParseSources(lines[..|lines| - 1]);
      var url := Strip(lines[|lines| - 1]);
      if IsHttpUrl(url) then Assign(t, url, NotStarted) else t
  }

  /**
   * The sources text gives one "not started" entry per distinct http(s)
   * line, in order of first appearance.
   */
  lemma {:induction false} ParseSourcesKeys(lines: seq<string>)
    ensures Keys(ParseSources(lines)) == Dedup(ValidUrls(lines))
  {
    if lines != [] {
      var init := lines[..|lines| - 1];
      var url := Strip(lines[|lines| - 1]);
      var t := ParseSources(init);
      ParseSourcesKeys(init);
      if IsHttpUrl(url) {
        DedupSameElements(ValidUrls(init));
        AssignKeys(t, url, NotStarted);
        var v := ValidUrls(init) + [url];
        assert ValidUrls(lines) == v;
        assert v[..|v| - 1] == ValidUrls(init) && v[|v| - 1] == url;
        assert Dedup(v) == if url in ValidUrls(init) then Dedup(ValidUrls(init)) else Dedup(ValidUrls(init)) + [url];
      } else {
        assert ParseSources(lines) == t;
        assert ValidUrls(lines) == ValidUrls(init);
      }
    }
  }

  lemma {:induction false} ParseSourcesNotStarted(lines: seq<string>)
    ensures forall i :: 0 <= i < |ParseSources(lines)| ==> ParseSources(lines)[i].status == NotStarted
  {
    if lines != [] {
      ParseSourcesNotStarted(lines[..|lines| - 1]);
    }
  }

  /**
   * The text path of `read_full_dict_source_file`: every line is stripped
   * and, when it starts with `http://` or `https://`, set to "not started".
   */
  method ReadSourceLines(lines: seq<string>) returns (t: seq<UrlEntry>)
    ensures UniqueKeys(t)
    ensures Keys(t) == Dedup(ValidUrls(lines))
    ensures forall u :: u in Keys(t) <==> IsHttpUrl(u) && u in Stripped(lines)
    ensures forall i :: 0 <= i < |t| ==> t[i].status == NotStarted
  {
    t := [];
    for n := 0 to |lines|
      invariant t == ParseSources(lines[..n])
    {
      var url := Strip(lines[n]);
      assert lines[..n + 1][..n] == lines[..n] && lines[..n + 1][n] == lines[n];
      if !StartsWith(url, "http://") && !StartsWith(url, "https://") {
        // not a URL: skipped
      } else {
        t := Assign(t, url, NotStarted);
      }
    }
    assert lines[..|lines|] == lines;
    ParseSourcesKeys(lines);
    ParseSourcesNotStarted(lines);
    DedupSameElements(ValidUrls(lines));
    forall u ensures u in Keys(t) <==> IsHttpUrl(u) && u in Stripped(lines) {
      ValidUrlsElement(lines, u);
    }
  }

  // ---------------------------------------------------------------------
  // Choosing the next chunk
  // ---------------------------------------------------------------------

  /** The keys whose status is "not started", in dict order. */
  function NotStartedKeys(t: seq<UrlEntry>): seq<string> {
    if t == [] then []
    else
      var init := t[..|t| - 1];
      NotStartedKeys(init) + (if t[|t| - 1].status == NotStarted then [t[|t| - 1].url] else [])
  }

  function Take(s: seq<string>, n: nat): (r: seq<string>)
    ensures |r| <= n && r <= s
  {
    if |s| <= n then s else s[..n]
  }

  lemma {:induction false} NotStartedKeysAppend(a: seq<UrlEntry>, b: seq<UrlEntry>)
    ensures NotStartedKeys(a + b) == NotStartedKeys(a) + NotStartedKeys(b)
  {
    if b != [] {
      NotStartedKeysAppend(a, b[..|b| - 1]);
      assert (a + b)[..|a + b| - 1] == a + b[..|b| - 1];
    } else {
      assert a + b == a;
    }
  }

  lemma {:induction false} NotStartedKeysElements(t: seq<UrlEntry>)
    ensures forall u :: u in NotStartedKeys(t) <==>
      exists j :: 0 <= j < |t| && t[j].url == u && t[j].status == NotStarted
  {
    if t != [] {
      var init := t[..|t| - 1];
      NotStartedKeysElements(init);
      forall u ensures u in NotStartedKeys(t) <==> exists j :: 0 <= j < |t| && t[j].url == u && t[j].status == NotStarted {
        if u in NotStartedKeys(init) {
          var j :| 0 <= j < |init| && init[j].url == u && init[j].status == NotStarted;
          assert t[j] == init[j];
        }
        if exists j :: 0 <= j < |t| && t[j].url == u && t[j].status == NotStarted {
          var j :| 0 <= j < |t| && t[j].url == u && t[j].status == NotStarted;
          if j < |init| {
            assert init[j] == t[j];
          }
        }
      }
    }
  }

  /** With unique keys, the chosen keys of a prefix are exactly its not-started entries. */
  lemma ChosenInPrefix(t: seq<UrlEntry>, n: nat, j: nat)
    requires UniqueKeys(t) && n <= |t| && j < |t|
    ensures t[j].url in NotStartedKeys(t[..n]) <==> (j < n && t[j].status == NotStarted)
  {
    NotStartedKeysElements(t[..n]);
    if t[j].url in NotStartedKeys(t[..n]) {
      var k :| 0 <= k < n && t[..n][k].url == t[j].url && t[..n][k].status == NotStarted;
      assert t[k].url == t[j].url;
    }
    if j < n && t[j].status == NotStarted {
      assert t[..n][j] == t[j];
    }
  }

  /** The dict after the selection loop has walked its first `n` entries. */
  function MarkedPrefix(t: seq<UrlEntry>, n: nat): (r: seq<UrlEntry>)
    ensures |r| == |t|
    ensures forall j :: 0 <= j < |t| ==> r[j].url == t[j].url
    ensures forall j :: 0 <= j < |t| ==>
      r[j].status == (if j < n && t[j].status == NotStarted then InProgress else t[j].status)
  {
    seq(|t|, j requires 0 <= j < |t| => if j < n && t[j].status == NotStarted then UrlEntry(t[j].url, InProgress) else t[j])
  }

  /** Where the selection loop stops, the keys taken are the first `cap` not-started keys. */
  lemma SelectionStops(t: seq<UrlEntry>, i: nat, cap: nat, next: seq<string>)
    requires i <= |t| && cap > 0
    requires next == NotStartedKeys(t[..i]) && |next| <= cap
    requires i == |t| || |next| == cap
    ensures next == Take(NotStartedKeys(t), cap)
  {
    assert t == t[..i] + t[i..];
    NotStartedKeysAppend(t[..i], t[i..]);
  }

  /** The entries of the walked prefix that were not started are exactly the ones taken. */
  lemma SelectionMarks(t: seq<UrlEntry>, i: nat, updated: seq<UrlEntry>, next: seq<string>)
    requires UniqueKeys(t) && i <= |t| && next == NotStartedKeys(t[..i])
    requires |updated| == |t|
    requires forall j :: 0 <= j < |t| ==>
      updated[j].status == (if j < i && t[j].status == NotStarted then InProgress else t[j].status)
    ensures forall u :: u in next ==> exists j :: 0 <= j < |t| && t[j].url == u && t[j].status == NotStarted
    ensures forall j :: 0 <= j < |t| ==>
      updated[j].status == (if t[j].url in next then InProgress else t[j].status)
  {
    forall j | 0 <= j < |t|
      ensures updated[j].status == (if t[j].url in next then InProgress else t[j].status)
    {
      ChosenInPrefix(t, i, j);
    }
    NotStartedKeysElements(t[..i]);
    forall u | u in next ensures exists j :: 0 <= j < |t| && t[j].url == u && t[j].status == NotStarted {
      var j :| 0 <= j < i && t[..i][j].url == u && t[..i][j].status == NotStarted;
      assert t[j] == t[..i][j];
    }
  }

  /**
   * The selection loop of `convert_urls_to_md`: walk the dict in order,
   * take every "not started" key, mark it "in progress", and stop as soon as
   * the count reaches the cap (checked after each entry, so a cap of 0 still
   * lets the first entry be taken).
   */
  method SelectNextUrls(t: seq<UrlEntry>, cap: nat) returns (updated: seq<UrlEntry>, next: seq<string>)
    requires UniqueKeys(t)
    ensures cap > 0 ==> next == Take(NotStartedKeys(t), cap)
    ensures cap == 0 ==> next == (if t != [] && t[0].status == NotStarted then [t[0].url] else [])
    ensures |next| <= if cap == 0 then 1 else cap
    ensures forall u :: u in next ==> exists j :: 0 <= j < |t| && t[j].url == u && t[j].status == NotStarted
    ensures |updated| == |t|
    ensures forall j :: 0 <= j < |t| ==> updated[j].url == t[j].url
    ensures forall j :: 0 <= j < |t| ==>
      updated[j].status == (if t[j].url in next then InProgress else t[j].status)
  {
    updated := t;
    next := [];
    var counter := 0;
    var i := 0;
    while i < |t|
      invariant 0 <= i <= |t|
      invariant next == NotStartedKeys(t[..i]) && counter == |next|
      invariant i == 0 || counter < cap
      invariant updated == MarkedPrefix(t, i)
    {
      var e := t[i];
      assert t[..i + 1] == t[..i] + [e];
      i := i + 1;
      if e.status == NotStarted {
        next := next + [e.url];
        updated := updated[i - 1 := UrlEntry(e.url, InProgress)];
        counter := counter + 1;
      }
      assert updated == MarkedPrefix(t, i);
      if counter >= cap {
        break;
      }
    }
    SelectionMarks(t, i, updated, next);
    if cap > 0 {
      SelectionStops(t, i, cap, next);
    } else if t != [] {
      assert t[..1] == [t[0]];
    }
  }

  // ---------------------------------------------------------------------
  // Marking a chunk complete
  // ---------------------------------------------------------------------

  /** `for key in completed_keys: url_dict[key] = JSON_COMPLETE`, as a function. */
  function MarkAll(t: seq<UrlEntry>, completed: seq<string>): (r: seq<UrlEntry>)
    requires UniqueKeys(t)
    ensures UniqueKeys(r) && |r| >= |t|
  {
    if completed == [] then t
    else Assign(MarkAll(t, completed[..|completed| - 1]), completed[|completed| - 1], Complete)
  }

  /** Existing entries become "complete" exactly when their key was completed. */
  lemma {:induction false} MarkAllExisting(t: seq<UrlEntry>, completed: seq<string>, i: nat)
    requires UniqueKeys(t) && i < |t|
    ensures MarkAll(t, completed)[i] == if t[i].url in completed then UrlEntry(t[i].url, Complete) else t[i]
  {
    if completed != [] {
      var init := completed[..|completed| - 1];
      MarkAllExisting(t, init, i);
      assert completed == init + [completed[|completed| - 1]];
    }
  }

  /** Entries past the old end are completed keys the dict did not hold. */
  lemma {:induction false} MarkAllAdded(t: seq<UrlEntry>, completed: seq<string>, i: nat)
    requires UniqueKeys(t) && |t| <= i < |MarkAll(t, completed)|
    ensures MarkAll(t, completed)[i].status == Complete
    ensures MarkAll(t, completed)[i].url in completed && MarkAll(t, completed)[i].url !in Keys(t)
  {
    var init := completed[..|completed| - 1];
    var key := completed[|completed| - 1];
    var m := MarkAll(t, init);
    assert completed == init + [key];
    if i < |m| {
      MarkAllAdded(t, init, i);
    } else {
      assert MarkAll(t, completed)[i] == UrlEntry(key, Complete);
      assert key !in Keys(m);
      MarkAllKeepsKeys(t, init);
    }
  }

  /** The keys the dict held stay where they were. */
  lemma MarkAllKeepsKeys(t: seq<UrlEntry>, completed: seq<string>)
    requires UniqueKeys(t)
    ensures Keys(MarkAll(t, completed))[..|t|] == Keys(t)
  {
    var m := MarkAll(t, completed);
    forall j | 0 <= j < |t| ensures m[j].url == t[j].url {
      MarkAllExisting(t, completed, j);
    }
  }

  /** Every completed key is in the dict afterwards, with no new entry when all were there already. */
  lemma {:induction false} MarkAllCovers(t: seq<UrlEntry>, completed: seq<string>)
    requires UniqueKeys(t)
    ensures forall u :: u in completed ==> u in Keys(MarkAll(t, completed))
    ensures (forall u :: u in completed ==> u in Keys(t)) ==> |MarkAll(t, completed)| == |t|
  {
    if completed != [] {
      var init := completed[..|completed| - 1];
      var key := completed[|completed| - 1];
      var m := MarkAll(t, init);
      MarkAllCovers(t, init);
      AssignKeys(m, key, Complete);
      assert completed == init + [key];
      if forall u :: u in completed ==> u in Keys(t) {
        assert forall u :: u in init ==> u in Keys(t);
        MarkAllKeepsKeys(t, init);
        assert Keys(m) == Keys(m)[..|t|];
        assert key in Keys(m);
      }
    }
  }

  /**
   * The marking loop of `update_json_snapshot_file`: each completed key is
   * set to "complete"; a key the dict did not hold is added at the end.
   */
  method MarkComplete(t: seq<UrlEntry>, completed: seq<string>) returns (updated: seq<UrlEntry>)
    requires UniqueKeys(t)
    ensures UniqueKeys(updated) && |updated| >= |t|
    ensures forall i :: 0 <= i < |t| ==>
      updated[i] == (if t[i].url in completed then UrlEntry(t[i].url, Complete) else t[i])
    ensures forall i :: |t| <= i < |updated| ==>
      updated[i].status == Complete && updated[i].url in completed && updated[i].url !in Keys(t)
    ensures forall u :: u in completed ==> u in Keys(updated)
    ensures (forall u :: u in completed ==> u in Keys(t)) ==> |updated| == |t|
  {
    updated := t;
    for n := 0 to |completed|
      invariant updated == MarkAll(t, completed[..n])
    {
      assert completed[..n + 1][..n] == completed[..n];
      updated := Assign(updated, completed[n], Complete);
    }
    assert completed[..|completed|] == completed;
    forall i | 0 <= i < |t|
      ensures updated[i] == (if t[i].url in completed then UrlEntry(t[i].url, Complete) else t[i])
    {
      MarkAllExisting(t, completed, i);
    }
    forall i | |t| <= i < |updated|
      ensures updated[i].status == Complete && updated[i].url in completed && updated[i].url !in Keys(t)
    {
      MarkAllAdded(t, completed, i);
    }
    MarkAllCovers(t, completed);
  }

  /**
   * The bookkeeping of one chunk run of `convert_urls_to_md`, crawling and
   * conversion left out: choose the next URLs, then mark them complete.
   * Every chosen URL ends "complete"; every other entry is as it was.
   */
  method ChunkBookkeeping(t: seq<UrlEntry>, cap: nat) returns (final: seq<UrlEntry>, next: seq<string>)
    requires UniqueKeys(t)
    ensures cap > 0 ==> next == Take(NotStartedKeys(t), cap)
    ensures UniqueKeys(final) && |final| == |t|
    ensures forall j :: 0 <= j < |t| ==> final[j].url == t[j].url
    ensures forall j :: 0 <= j < |t| ==> final[j].status == (if t[j].url in next then Complete else t[j].status)
  {
    var updated;
    updated, next := SelectNextUrls(t, cap);
    assert Keys(updated) == Keys(t);
    forall u | u in next ensures u in Keys(updated) {
      var j :| 0 <= j < |t| && t[j].url == u && t[j].status == NotStarted;
      assert Keys(updated)[j] == u;
    }
    final := MarkComplete(updated, next);
  }
}
