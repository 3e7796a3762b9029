/**
 The heartbeat log: the agent appends one JSON entry to a line, the waiting tool scans back from
 the end of the file for the start of the last line.
 */
module HeartbeatLog {
  import opened Wrappers

  /** What stripping a text removes: white space of any kind, not only of ASCII. */
  predicate Space(c: char) {
    var n := c as int;
    || 9 <= n <= 13 || 28 <= n <= 32 || n == 0x85 || n == 0xa0 || n == 0x1680 || 0x2000 <= n <= 0x200a
    || n == 0x2028 || n == 0x2029 || n == 0x202f || n == 0x205f || n == 0x3000
  }

  function StripLeft(s: string): string {
    if s != "" && Space(s[0]) then StripLeft(s[1..]) else s
  }

  function StripRight(s: string): string {
    if s != "" && Space(s[|s| - 1]) then StripRight(s[..|s| - 1]) else s
  }

  function Strip(s: string): string {
    StripLeft(StripRight(s))
  }

  /** The line that starts at `position`, with its newline if it has one. */
  function LineFrom(s: string, position: nat): string
    requires position <= |s|
    decreases |s| - position
  {
    if position == |s| then ""
    else if s[position] == '\n' then "\n"
    else [s[position]] + LineFrom(s, position + 1)
  }

  function NonBlank(line: string): Option<string> {
    if Strip(line) == "" then None else Some(Strip(line))
  }

  predicate Blank(s: string) {
    forall i :: 0 <= i < |s| ==> Space(s[i])
  }

  lemma {:induction false} StripRightTrims(s: string) returns (r: string)
    ensures s == StripRight(s) + r && Blank(r)
    ensures StripRight(s) != "" ==> !Space(StripRight(s)[|StripRight(s)| - 1])
  {
    if s != "" && Space(s[|s| - 1]) {
      var before := StripRightTrims(s[..|s| - 1]);
      r := before + [s[|s| - 1]];
    } else {
      r := "";
    }
  }

  lemma {:induction false} StripLeftTrims(s: string) returns (l: string)
    ensures s == l + StripLeft(s) && Blank(l)
    ensures StripLeft(s) != "" ==> !Space(StripLeft(s)[0])
  {
    if s != "" && Space(s[0]) {
      var after := StripLeftTrims(s[1..]);
      l := [s[0]] + after;
    } else {
      l := "";
    }
  }

  /** Stripping takes away white space on both sides, and all of it. */
  lemma StripTrims(s: string) returns (l: string, r: string)
    ensures s == l + Strip(s) + r && Blank(l) && Blank(r)
    ensures Strip(s) != "" ==> !Space(Strip(s)[0]) && !Space(Strip(s)[|Strip(s)| - 1])
  {
    r := StripRightTrims(s);
    l := StripLeftTrims(StripRight(s));
    var right := StripRight(s);
    if Strip(s) != "" {
      assert right[|right| - 1] == Strip(s)[|Strip(s)| - 1];
    }
  }

  /** Nothing in `s` strictly between offset `k` and the last byte is a newline. */
  predicate NoNewlineBetween(s: string, k: nat) {
    forall j :: k < j < |s| - 1 ==> s[j] != '\n'
  }

  /** `start` is where the reader begins: after the last newline it tests, or at the beginning. */
  predicate ReadsFrom(s: string, start: nat) {
    && start < |s|
    && NoNewlineBetween(s, if start == 0 then 0 else start - 1)
    && (start == 0 || (start > 1 && s[start - 1] == '\n'))
  }

  lemma ReadsFromOne(s: string, a: nat, b: nat)
    requires ReadsFrom(s, a) && ReadsFrom(s, b)
    ensures a == b
  {
    assert b > 1 ==> s[b - 1] == '\n';
    assert a > 1 ==> s[a - 1] == '\n';
  }

  /** A file that only this log writes to; `written` are the entries appended so far, oldest first. */
  class LogFile {
    var content: Option<string>
    ghost var written: seq<string>

    ghost predicate Valid()
      reads this
    {
      && (content.None? <==> written == [])
      && (content.Some? ==> content.value == Log(written))
      && forall i :: 0 <= i < |written| ==> ObjectText(written[i])
    }

    constructor ()
      ensures Valid() && written == []
    {
      content, written := None, [];
    }

    /** Opens for appending, which creates the file if it is not there, and writes one line. */
    method Append(entry: string)
      requires Valid() && ObjectText(entry)
      modifies this
      ensures Valid() && written == old(written) + [entry]
    {
      var before := if content.Some? then content.value else "";
      content := Some(before + (entry + "\n"));
      written := written + [entry];
      assert written[..|written| - 1] == old(written);
    }

    /** Reads back the entry appended last. */
    method Latest() returns (line: Option<string>)
      requires Valid()
      ensures line == if written == [] then None else Some(written[|written| - 1])
    {
      line := ReadLatest(content);
      if written != [] {
        LatestIsLast(written, line);
      }
    }
  }

  /** What the scan makes of a file, as a relation: the one line it may return. */
  ghost predicate IsLatest(s: string, line: Option<string>) {
    if s == "" then line.None?
    else exists start :: ReadsFrom(s, start) && line == NonBlank(LineFrom(s, start))
  }

  method ReadLatest(file: Option<string>) returns (line: Option<string>)
    ensures file.None? ==> line.None?
    ensures file.Some? ==> IsLatest(file.value, line)
  {
    if file.None? {
      return None;
    }
    var s := file.value;
    if |s| == 0 {
      return None;
    }
    var position: nat := |s| - 1;
    while position > 0
      invariant position < |s|
      invariant NoNewlineBetween(s, position)
    {
      if s[position] == '\n' && position < |s| - 1 {
        break;
      }
      position := position - 1;
    }
    if position > 0 {
      position := position + 1;
    }
    assert ReadsFrom(s, position);
    line := NonBlank(LineFrom(s, position));
  }

  // ---------------------------------------------------------------- what was appended is read back

  /** One line that begins and ends with something visible, as an encoded JSON object does. */
  predicate ObjectText(line: string) {
    line != "" && !Space(line[0]) && !Space(line[|line| - 1]) && forall k :: 0 <= k < |line| ==> line[k] != '\n'
  }

  function Log(entries: seq<string>): string {
    if entries == [] then "" else Log(entries[..|entries| - 1]) + (entries[|entries| - 1] + "\n")
  }

  lemma {:induction false} LineFromSuffix(s: string, position: nat)
    requires position <= |s|
    ensures LineFrom(s, position) == LineFrom(s[position..], 0)
    decreases |s| - position
  {
    if position < |s| && s[position] != '\n' {
      LineFromSuffix(s, position + 1);
      LineFromSuffix(s[position..], 1);
      assert s[position..][1..] == s[position + 1..];
    }
  }

  lemma {:induction false} LineFromWhole(line: string, rest: string, k: nat)
    requires k <= |line| && forall i :: 0 <= i < |line| ==> line[i] != '\n'
    ensures LineFrom(line + "\n" + rest, k) == line[k..] + "\n"
    decreases |line| - k
  {
    var s := line + "\n" + rest;
    if k < |line| {
      LineFromWhole(line, rest, k + 1);
      assert s[k] == line[k] && line[k..] == [line[k]] + line[k + 1..];
    } else {
      assert s[k] == '\n';
    }
  }

  lemma StripsToObject(entry: string)
    requires ObjectText(entry)
    ensures NonBlank(entry + "\n") == Some(entry)
  {
    var s := entry + "\n";
    assert s[..|s| - 1] == entry;
    assert StripRight(s) == StripRight(entry);
  }

  /** After any appends the scan finds the entry appended last, however long the file is. */
  lemma {:induction false} LatestIsLast(entries: seq<string>, line: Option<string>)
    requires entries != [] && forall i :: 0 <= i < |entries| ==> ObjectText(entries[i])
    requires IsLatest(Log(entries), line)
    ensures line == Some(entries[|entries| - 1])
  {
    var before := Log(entries[..|entries| - 1]);
    var entry := entries[|entries| - 1];
    var s := Log(entries);
    assert s == before + entry + "\n";
    LogEndsInNewline(entries[..|entries| - 1]);
    var start :| ReadsFrom(s, start) && line == NonBlank(LineFrom(s, start));
    ReadsFromEntry(before, entry);
    ReadsFromOne(s, start, |before|);
    LastLineOf(before, entry);
  }

  lemma ReadsFromEntry(before: string, entry: string)
    requires ObjectText(entry) && (before == "" || (|before| > 1 && before[|before| - 1] == '\n'))
    ensures ReadsFrom(before + entry + "\n", |before|)
  {
    var s := before + entry + "\n";
    forall j | |before| <= j < |s| - 1 ensures s[j] != '\n' {
      assert s[j] == entry[j - |before|];
    }
  }

  lemma LastLineOf(before: string, entry: string)
    requires ObjectText(entry)
    ensures NonBlank(LineFrom(before + entry + "\n", |before|)) == Some(entry)
  {
    var s := before + entry + "\n";
    LineFromSuffix(s, |before|);
    assert s[|before|..] == entry + "\n" + "";
    LineFromWhole(entry, "", 0);
    StripsToObject(entry);
  }

  lemma LogEndsInNewline(entries: seq<string>)
    requires forall i :: 0 <= i < |entries| ==> ObjectText(entries[i])
    ensures Log(entries) == "" <==> entries == []
    ensures entries != [] ==> |Log(entries)| > 1 && Log(entries)[|Log(entries)| - 1] == '\n'
  {
  }

  // ---------------------------------------------------------------- on any file at all

  /** The text after the last newline before the final byte: what the scan is meant to find. */
  ghost predicate LastLineStart(s: string, start: nat) {
    && start < |s|
    && (forall j :: start <= j < |s| - 1 ==> s[j] != '\n')
    && (start == 0 || s[start - 1] == '\n')
  }

  /** The scan never tests offset 0, so a newline there hides the only line after it. */
  predicate HiddenByFirstByte(s: string) {
    |s| >= 2 && s[0] == '\n' && NoNewlineBetween(s, 0) && Strip(s[1..]) != ""
  }

  /** Otherwise, and only otherwise, it returns the last line, on any file. */
  lemma ReadsLastLineIff(s: string, line: Option<string>, start: nat)
    requires s != "" && IsLatest(s, line) && LastLineStart(s, start)
    ensures line == NonBlank(LineFrom(s, start)) <==> !HiddenByFirstByte(s)
  {
    var found :| ReadsFrom(s, found) && line == NonBlank(LineFrom(s, found));
    if start != 1 {
      assert ReadsFrom(s, start);
      ReadsFromOne(s, start, found);
      if |s| >= 2 && s[0] == '\n' && NoNewlineBetween(s, 0) {
        StartAfterNewline(s, start);
      }
    } else {
      assert ReadsFrom(s, 0);
      ReadsFromOne(s, 0, found);
      assert LineFrom(s, 0) == "\n";
      assert StripRight("\n") == "";
      LineFromLast(s, 1);
    }
  }

  /** The shortest such file: a newline, then an object. */
  lemma HiddenObject(line: Option<string>)
    requires IsLatest("\n{}", line)
    ensures line.None? && LastLineStart("\n{}", 1) && NonBlank(LineFrom("\n{}", 1)) == Some("{}")
  {
    var s := "\n{}";
    assert s[1] == '{' && s[2] == '}';
    assert Strip("{}") == "{}";
    LineFromLast(s, 1);
    assert s[1..] == "{}";
    assert HiddenByFirstByte(s);
    ReadsLastLineIff(s, line, 1);
    var found :| ReadsFrom(s, found) && line == NonBlank(LineFrom(s, found));
    assert ReadsFrom(s, 0);
    ReadsFromOne(s, 0, found);
    assert LineFrom(s, 0) == "\n";
    assert StripRight("\n") == "";
  }

  lemma StartAfterNewline(s: string, start: nat)
    requires |s| >= 2 && s[0] == '\n' && LastLineStart(s, start)
    ensures start > 0
  {
  }

  lemma {:induction false} LineFromLast(s: string, position: nat)
    requires position <= |s| && forall j :: position <= j < |s| - 1 ==> s[j] != '\n'
    ensures LineFrom(s, position) == s[position..]
    decreases |s| - position
  {
    if position < |s| {
      if s[position] == '\n' {
        assert position == |s| - 1;
      } else {
        LineFromLast(s, position + 1);
      }
    }
  }
}
