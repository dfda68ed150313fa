/** What a session of the reader promises, stated against an independent
    description of an accepted session: every line up to the first
    terminator is admissible, the readings those lines contribute have
    distinct keys, and the result is exactly those readings in arrival
    order. */
module ReadDeviceProperties {
  import opened Strings
  import opened ReadDevice

  // ---------------------------------------------------------------------------
  // Reference description of a session

  predicate IsTerminator(line: string)
  {
    |line| > 0 && line[0] == Terminator
  }

  /** The line raises nothing while it is classified. */
  predicate Admissible(line: string)
  {
    Contains(line, StatusMarker) || (!Contains(line, FaultMarker) && !DataLine(line).Abort?)
  }

  /** The line raises nothing during its iteration, the terminator test included. */
  predicate Passes(line: string)
  {
    |line| > 0 && Admissible(line)
  }

  /** The reading an admissible line contributes, if any. */
  function Emitted(line: string): seq<Entry>
  {
    if Contains(line, StatusMarker) || Contains(line, FaultMarker) then []
    else match DataLine(line)
      case NewEntry(e) => [e]
      case _ => []
  }

  /** The readings contributed by a run of lines, in order. */
  function EntriesOf(lines: seq<string>): seq<Entry>
  {
    if lines == [] then [] else Emitted(lines[0]) + EntriesOf(lines[1..])
  }

  /** Index of the first terminator line, `|lines|` when there is none. */
  function FirstTerminator(lines: seq<string>): (k: nat)
    ensures k <= |lines|
    ensures k < |lines| ==> IsTerminator(lines[k])
    ensures forall i :: 0 <= i < k ==> !IsTerminator(lines[i])
  {
    if lines == [] then 0
    else if IsTerminator(lines[0]) then 0
    else 1 + FirstTerminator(lines[1..])
  }

  /** Reading gets past the first `j` lines without stopping or raising. */
  ghost predicate Reaches(lines: seq<string>, j: nat, d: seq<Entry>)
  {
    && j <= |lines|
    && (forall i :: 0 <= i < j ==> Passes(lines[i]) && !IsTerminator(lines[i]))
    && DistinctKeys(d + EntriesOf(lines[..j]))
  }

  /** A session that ends successfully at its first terminator. */
  ghost predicate Accepted(lines: seq<string>, d: seq<Entry>)
  {
    var k := FirstTerminator(lines);
    && k < |lines|
    && (forall i :: 0 <= i <= k ==> Passes(lines[i]))
    && DistinctKeys(d + EntriesOf(lines[..k + 1]))
  }

  // ---------------------------------------------------------------------------
  // Dictionary keys

  lemma DistinctKeysPrefix(s: seq<Entry>, t: seq<Entry>)
    requires DistinctKeys(s + t)
    ensures DistinctKeys(s)
  {
    forall i, j | 0 <= i < j < |s| ensures s[i].key != s[j].key {
      assert (s + t)[i] == s[i] && (s + t)[j] == s[j];
    }
  }

  /** Adding an entry keeps the keys distinct exactly when its key is new. */
  lemma DistinctKeysAdd(d: seq<Entry>, e: Entry)
    ensures DistinctKeys(d + [e]) <==> DistinctKeys(d) && e.key !in Keys(d)
  {
    if DistinctKeys(d + [e]) {
      DistinctKeysPrefix(d, [e]);
      forall x | x in d ensures x.key != e.key {
        var i :| 0 <= i < |d| && d[i] == x;
        assert (d + [e])[i] == x && (d + [e])[|d|] == e;
      }
    }
    if DistinctKeys(d) && e.key !in Keys(d) {
      forall i, j | 0 <= i < j < |d + [e]| ensures (d + [e])[i].key != (d + [e])[j].key {
        if j == |d| {
          assert d[i] in d;
        }
      }
    }
  }

  lemma KeysAdd(d: seq<Entry>, e: Entry)
    ensures Keys(d + [e]) == Keys(d) + {e.key}
  {
    forall k ensures k in Keys(d + [e]) <==> k in Keys(d) + {e.key} {
      if k in Keys(d + [e]) {
        var x :| x in d + [e] && x.key == k;
        if x != e { assert x in d; }
      }
      if k in Keys(d) {
        var x :| x in d && x.key == k;
        assert x in d + [e];
      }
    }
  }

  /** The map view of a dictionary has exactly its keys. */
  lemma {:induction false} ToDictionaryKeys(d: seq<Entry>)
    ensures ToDictionary(d).Keys == Keys(d)
  {
    if d != [] {
      var p, e := d[..|d| - 1], d[|d| - 1];
      assert d == p + [e];
      KeysAdd(p, e);
      ToDictionaryKeys(p);
    }
  }

  /** The map view holds one entry per reading, each with its value. */
  lemma {:induction false} ToDictionaryContents(d: seq<Entry>)
    requires DistinctKeys(d)
    ensures ToDictionary(d).Keys == Keys(d)
    ensures |ToDictionary(d)| == |d|
    ensures forall i :: 0 <= i < |d| ==> ToDictionary(d)[d[i].key] == d[i].value
  {
    ToDictionaryKeys(d);
    if d != [] {
      var p, e := d[..|d| - 1], d[|d| - 1];
      assert d == p + [e];
      DistinctKeysAdd(p, e);
      ToDictionaryContents(p);
      ToDictionaryAdd(p, e, ToDictionary(p));
    }
  }

  lemma ToDictionaryAdd(p: seq<Entry>, e: Entry, m: map<string, string>)
    requires m.Keys == Keys(p) && e.key !in Keys(p) && |m| == |p|
    requires forall i :: 0 <= i < |p| ==> m[p[i].key] == p[i].value
    ensures |m[e.key := e.value]| == |p + [e]|
    ensures forall i :: 0 <= i < |p + [e]| ==> m[e.key := e.value][(p + [e])[i].key] == (p + [e])[i].value
  {
    assert m[e.key := e.value].Keys == m.Keys + {e.key};
    forall i | 0 <= i < |p + [e]|
      ensures m[e.key := e.value][(p + [e])[i].key] == (p + [e])[i].value
    {
      if i < |p| {
        assert (p + [e])[i] == p[i];
        assert p[i] in p;
      }
    }
  }

  // ---------------------------------------------------------------------------
  // Data lines

  /** A data line adds nothing exactly when its first comma field is empty. */
  lemma DataLineNoEntry(line: string)
    ensures DataLine(line) == NoEntry <==> line == "" || line[0] == Separator
  {
    SplitFirstEmpty(line, Separator);
  }

  /** A data line with a tag fails exactly when it has fewer than three
      fields, and then with an index out of range. */
  lemma DataLineAbort(line: string)
    ensures DataLine(line).Abort? <==> line != "" && line[0] != Separator && Count(line, Separator) < 2
    ensures DataLine(line).Abort? ==> DataLine(line).fault == IndexOutOfRange
  {
    SplitFirstEmpty(line, Separator);
  }

  /** For `tag,value,unit[,more...]` with a non-empty tag the value is the
      second field and the key is `tag + "-"` when the unit is empty, the
      tag alone otherwise. */
  lemma DataLineFields(tag: string, value: string, unit: string, more: seq<string>)
    requires tag != ""
    requires Separator !in tag && Separator !in value && Separator !in unit
    requires forall i :: 0 <= i < |more| ==> Separator !in more[i]
    ensures DataLine(Join([tag, value, unit] + more, Separator))
         == NewEntry(Entry(if unit == "" then tag + "-" else tag, value))
  {
    var parts := [tag, value, unit] + more;
    FieldsWithoutSeparator(tag, value, unit, more);
    var line := Join(parts, Separator);
    SplitJoin(parts, Separator);
    FieldsEntryOfThree(parts);
    assert DataLine(line) == FieldsEntry(parts);
  }

  lemma FieldsWithoutSeparator(tag: string, value: string, unit: string, more: seq<string>)
    requires Separator !in tag && Separator !in value && Separator !in unit
    requires forall i :: 0 <= i < |more| ==> Separator !in more[i]
    ensures forall i :: 0 <= i < |[tag, value, unit] + more| ==> Separator !in ([tag, value, unit] + more)[i]
  {
    var parts := [tag, value, unit] + more;
    forall i | 0 <= i < |parts| ensures Separator !in parts[i] {
      if i >= 3 { assert parts[i] == more[i - 3]; }
    }
  }

  lemma FieldsEntryOfThree(parts: seq<string>)
    requires |parts| >= 3 && parts[0] != ""
    ensures FieldsEntry(parts)
         == NewEntry(Entry(if parts[2] == "" then parts[0] + "-" else parts[0], parts[1]))
  {
    assert parts[0] + "-" + "" == parts[0] + "-";
  }

  // ---------------------------------------------------------------------------
  // One iteration

  /** Classifying a line succeeds exactly when the line is admissible and
      its reading (if any) has a new key; the dictionary then grows by that
      reading. */
  lemma LineStepSpec(line: string, d: seq<Entry>)
    requires DistinctKeys(d)
    ensures LineStep(line, d).Ok? <==> Admissible(line) && DistinctKeys(d + Emitted(line))
    ensures LineStep(line, d).Ok? ==> LineStep(line, d).value == d + Emitted(line)
  {
    assert d + [] == d;
    if !Contains(line, StatusMarker) && !Contains(line, FaultMarker) && DataLine(line).NewEntry? {
      DistinctKeysAdd(d, DataLine(line).entry);
    }
  }

  /** The loop goes on after a line exactly when the line passes, is not a
      terminator and brings no duplicate key; it stops successfully exactly
      when the same holds of a terminator line. */
  lemma StepSpec(line: string, d: seq<Entry>)
    requires DistinctKeys(d)
    ensures Step(line, d).Continue?
        <==> Passes(line) && !IsTerminator(line) && DistinctKeys(d + Emitted(line))
    ensures Step(line, d).Continue? ==> Step(line, d).entries == d + Emitted(line)
    ensures (Step(line, d).Done? && Step(line, d).result.Ok?)
        <==> Passes(line) && IsTerminator(line) && DistinctKeys(d + Emitted(line))
    ensures Step(line, d).Done? && Step(line, d).result.Ok?
        ==> Step(line, d).result.value == d + Emitted(line)
  {
    LineStepSpec(line, d);
  }

  lemma EntriesOfFront(lines: seq<string>, j: nat)
    requires 0 < j <= |lines|
    ensures EntriesOf(lines[..j]) == Emitted(lines[0]) + EntriesOf(lines[1..][..j - 1])
  {
    assert lines[..j][0] == lines[0];
    assert lines[..j][1..] == lines[1..][..j - 1];
  }

  // ---------------------------------------------------------------------------
  // Whole sessions

  /** Once reading gets past `j` lines, the session goes on from line `j`
      with the readings of those lines added in order. */
  lemma {:induction false} SessionReaches(lines: seq<string>, j: nat, d: seq<Entry>)
    requires Reaches(lines, j, d)
    ensures Session(lines, d) == Session(lines[j..], d + EntriesOf(lines[..j]))
    decreases j
  {
    if j == 0 {
      assert lines[..0] == [] && d + [] == d;
    } else {
      EntriesOfFront(lines, j);
      var d' := d + Emitted(lines[0]);
      assert d + EntriesOf(lines[..j]) == d' + EntriesOf(lines[1..][..j - 1]);
      DistinctKeysPrefix(d', EntriesOf(lines[1..][..j - 1]));
      DistinctKeysPrefix(d, Emitted(lines[0]));
      StepSpec(lines[0], d);
      assert Reaches(lines[1..], j - 1, d');
      SessionReaches(lines[1..], j - 1, d');
      assert lines[1..][j - 1..] == lines[j..];
    }
  }

  lemma {:induction false} EntriesOfSnoc(lines: seq<string>, line: string)
    ensures EntriesOf(lines + [line]) == EntriesOf(lines) + Emitted(line)
    decreases |lines|
  {
    if lines == [] {
      assert [] + [line] == [line];
      assert [line][1..] == [];
    } else {
      var all := lines + [line];
      assert all[0] == lines[0] && all[1..] == lines[1..] + [line];
      EntriesOfSnoc(lines[1..], line);
      calc {
        EntriesOf(all);
        Emitted(lines[0]) + EntriesOf(lines[1..] + [line]);
        Emitted(lines[0]) + (EntriesOf(lines[1..]) + Emitted(line));
        (Emitted(lines[0]) + EntriesOf(lines[1..])) + Emitted(line);
      }
    }
  }

  /** An accepted session returns the readings of its lines up to the
      first terminator. */
  lemma AcceptedSessionOk(lines: seq<string>, d: seq<Entry>)
    requires DistinctKeys(d) && Accepted(lines, d)
    ensures Session(lines, d) == Ok(d + EntriesOf(lines[..FirstTerminator(lines) + 1]))
  {
    var k := FirstTerminator(lines);
    assert lines[..k + 1] == lines[..k] + [lines[k]];
    EntriesOfSnoc(lines[..k], lines[k]);
    var d' := d + EntriesOf(lines[..k]);
    assert d + EntriesOf(lines[..k + 1]) == d' + Emitted(lines[k]);
    DistinctKeysPrefix(d', Emitted(lines[k]));
    assert Reaches(lines, k, d);
    SessionReaches(lines, k, d);
    StepSpec(lines[k], d');
    assert lines[k..][0] == lines[k];
  }

  /** A session whose first line is an acceptable terminator is accepted. */
  lemma AcceptedAtFirst(lines: seq<string>, d: seq<Entry>)
    requires lines != [] && Passes(lines[0]) && IsTerminator(lines[0])
    requires DistinctKeys(d + Emitted(lines[0]))
    ensures Accepted(lines, d)
  {
    assert FirstTerminator(lines) == 0;
    assert lines[..1] == [lines[0]] && [lines[0]][1..] == [];
    assert EntriesOf(lines[..1]) == Emitted(lines[0]) + [];
    assert Emitted(lines[0]) + [] == Emitted(lines[0]);
    assert d + EntriesOf(lines[..FirstTerminator(lines) + 1]) == d + Emitted(lines[0]);
  }

  /** Acceptance carries back over a line that passes without terminating. */
  lemma AcceptedCons(lines: seq<string>, d: seq<Entry>)
    requires lines != [] && Passes(lines[0]) && !IsTerminator(lines[0])
    requires Accepted(lines[1..], d + Emitted(lines[0]))
    ensures Accepted(lines, d)
  {
    var k' := FirstTerminator(lines[1..]);
    assert FirstTerminator(lines) == k' + 1;
    EntriesShift(lines, d, k');
    PassesShift(lines, k');
  }

  lemma EntriesShift(lines: seq<string>, d: seq<Entry>, k': nat)
    requires k' + 1 < |lines|
    ensures d + EntriesOf(lines[..k' + 2]) == (d + Emitted(lines[0])) + EntriesOf(lines[1..][..k' + 1])
  {
    EntriesOfFront(lines, k' + 2);
    assert lines[1..][..k' + 1] == lines[1..k' + 2];
  }

  lemma PassesShift(lines: seq<string>, k': nat)
    requires k' + 1 < |lines| && Passes(lines[0])
    requires forall i :: 0 <= i <= k' ==> Passes(lines[1..][i])
    ensures forall i :: 0 <= i <= k' + 1 ==> Passes(lines[i])
  {
    forall i | 0 <= i <= k' + 1 ensures Passes(lines[i]) {
      if i > 0 { assert lines[i] == lines[1..][i - 1]; }
    }
  }

  /** A session that succeeds is accepted. */
  lemma {:induction false} SessionOkAccepted(lines: seq<string>, d: seq<Entry>)
    requires DistinctKeys(d) && Session(lines, d).Ok?
    ensures Accepted(lines, d)
    decreases |lines|
  {
    StepSpec(lines[0], d);
    if Step(lines[0], d).Done? {
      AcceptedAtFirst(lines, d);
    } else {
      var d' := d + Emitted(lines[0]);
      assert Session(lines, d) == Session(lines[1..], d');
      SessionOkAccepted(lines[1..], d');
      AcceptedCons(lines, d);
    }
  }

  /** A session succeeds exactly when it is accepted, and then returns
      exactly the readings of the lines up to and including the first
      terminator, in arrival order. */
  lemma SessionOkIff(lines: seq<string>, d: seq<Entry>)
    requires DistinctKeys(d)
    ensures Session(lines, d).Ok? <==> Accepted(lines, d)
    ensures Session(lines, d).Ok?
        ==> Session(lines, d).value == d + EntriesOf(lines[..FirstTerminator(lines) + 1])
  {
    if Session(lines, d).Ok? {
      SessionOkAccepted(lines, d);
    }
    if Accepted(lines, d) {
      AcceptedSessionOk(lines, d);
    }
  }

  /** ReadSerialPort succeeds exactly when the port opens and the lines form
      an accepted session; the dictionary it returns then has one key per
      reading and holds the readings up to the first terminator. */
  lemma ReadResultOk(portAvailable: bool, lines: seq<string>)
    ensures ReadResult(portAvailable, lines).Ok? <==> portAvailable && Accepted(lines, [])
    ensures ReadResult(portAvailable, lines).Ok?
        ==> var out := ReadResult(portAvailable, lines).value;
            && out == EntriesOf(lines[..FirstTerminator(lines) + 1])
            && DistinctKeys(out)
  {
    SessionOkIff(lines, []);
    var k := FirstTerminator(lines);
    if k < |lines| {
      assert [] + EntriesOf(lines[..k + 1]) == EntriesOf(lines[..k + 1]);
    }
  }

  /** A line containing "Running" raises nothing, not even when it also
      contains "Error", and adds no reading; the loop still tests it for
      the terminator. */
  lemma StatusLineSkipped(lines: seq<string>, j: nat, d: seq<Entry>)
    requires Reaches(lines, j, d) && j < |lines|
    requires Contains(lines[j], StatusMarker)
    ensures Session(lines, d) == (
      var d' := d + EntriesOf(lines[..j]);
      if IsTerminator(lines[j]) then Ok(d') else Session(lines[j + 1..], d'))
  {
    SessionReaches(lines, j, d);
    assert lines[j..][0] == lines[j] && lines[j..][1..] == lines[j + 1..];
  }

  /** A line containing "Error" but not "Running" ends the session with
      the device error carrying that exact line. */
  lemma FaultLineAborts(lines: seq<string>, j: nat, d: seq<Entry>)
    requires Reaches(lines, j, d) && j < |lines|
    requires Contains(lines[j], FaultMarker) && !Contains(lines[j], StatusMarker)
    ensures Session(lines, d) == Err(DeviceError(lines[j]))
  {
    SessionReaches(lines, j, d);
    assert lines[j..][0] == lines[j];
  }

  /** A non-empty line whose tag field is empty adds nothing and raises
      nothing. */
  lemma EmptyTagSkipped(lines: seq<string>, j: nat, d: seq<Entry>)
    requires Reaches(lines, j, d) && j < |lines|
    requires lines[j] != "" && lines[j][0] == Separator
    requires !Contains(lines[j], StatusMarker) && !Contains(lines[j], FaultMarker)
    ensures Session(lines, d) == Session(lines[j + 1..], d + EntriesOf(lines[..j]))
  {
    SessionReaches(lines, j, d);
    DataLineNoEntry(lines[j]);
    assert lines[j..][0] == lines[j] && lines[j..][1..] == lines[j + 1..];
  }

  /** The empty line adds nothing while classified, then fails the
      terminator test on its missing first character. */
  lemma EmptyLineFails(lines: seq<string>, j: nat, d: seq<Entry>)
    requires Reaches(lines, j, d) && j < |lines|
    requires lines[j] == ""
    ensures Session(lines, d) == Err(IndexOutOfRange)
  {
    SessionReaches(lines, j, d);
    DataLineNoEntry(lines[j]);
    assert lines[j..][0] == lines[j];
  }

  /** A data line with a tag but fewer than three fields fails with an
      index out of range. */
  lemma ShortLineFails(lines: seq<string>, j: nat, d: seq<Entry>)
    requires Reaches(lines, j, d) && j < |lines|
    requires !Contains(lines[j], StatusMarker) && !Contains(lines[j], FaultMarker)
    requires lines[j] != "" && lines[j][0] != Separator && Count(lines[j], Separator) < 2
    ensures Session(lines, d) == Err(IndexOutOfRange)
  {
    SessionReaches(lines, j, d);
    DataLineAbort(lines[j]);
    assert lines[j..][0] == lines[j];
  }

  /** A bare `*` line is classified as a data line with a tag and a single
      field, so it fails on its missing unit field before the terminator
      test is reached. */
  lemma BareTerminatorFails(lines: seq<string>, k: nat)
    requires Reaches(lines, k, []) && k < |lines|
    requires lines[k] == [Terminator]
    ensures ReadResult(true, lines) == Err(IndexOutOfRange)
  {
    ShortLineFails(lines, k, []);
  }

  /** A reading whose key is already in the dictionary fails instead of
      overwriting it. */
  lemma DuplicateKeyFails(lines: seq<string>, j: nat, d: seq<Entry>, e: Entry)
    requires Reaches(lines, j, d) && j < |lines|
    requires !Contains(lines[j], StatusMarker) && !Contains(lines[j], FaultMarker)
    requires DataLine(lines[j]) == NewEntry(e)
    requires e.key in Keys(d + EntriesOf(lines[..j]))
    ensures Session(lines, d) == Err(DuplicateKey(e.key))
  {
    SessionReaches(lines, j, d);
    assert lines[j..][0] == lines[j];
  }

  /** A data line `tag,value,unit` with a tag and a new key adds exactly
      that reading; a terminator line is classified in the same way before
      the loop stops on it. */
  lemma DataLineAdds(lines: seq<string>, j: nat, d: seq<Entry>, tag: string, value: string, unit: string)
    requires Reaches(lines, j, d) && j < |lines|
    requires lines[j] == Join([tag, value, unit], Separator)
    requires tag != "" && Separator !in tag && Separator !in value && Separator !in unit
    requires !Contains(lines[j], StatusMarker) && !Contains(lines[j], FaultMarker)
    requires (if unit == "" then tag + "-" else tag) !in Keys(d + EntriesOf(lines[..j]))
    ensures Session(lines, d) == (
      var d' := d + EntriesOf(lines[..j]) + [Entry(if unit == "" then tag + "-" else tag, value)];
      if IsTerminator(lines[j]) then Ok(d') else Session(lines[j + 1..], d'))
  {
    SessionReaches(lines, j, d);
    DataLineFields(tag, value, unit, []);
    assert [tag, value, unit] + [] == [tag, value, unit];
    assert lines[j] != [] by { assert tag != [] && lines[j][..|tag|] == tag; }
    assert lines[j..][0] == lines[j] && lines[j..][1..] == lines[j + 1..];
  }

  /** Nothing after the first terminator is read: once reading gets to a
      terminator line, the lines that follow it do not change the outcome. */
  lemma LinesAfterTerminatorUnread(lines: seq<string>, k: nat, d: seq<Entry>, rest: seq<string>)
    requires Reaches(lines, k, d) && k < |lines| && IsTerminator(lines[k])
    ensures Session(lines[..k + 1] + rest, d) == Session(lines, d)
  {
    var cut := lines[..k + 1] + rest;
    assert cut[..k] == lines[..k];
    assert Reaches(cut, k, d);
    SessionReaches(lines, k, d);
    SessionReaches(cut, k, d);
    assert cut[k..][0] == lines[k..][0] == lines[k];
  }

  /** Running out of lines before any terminator is a read timeout. */
  lemma ExhaustedLinesFail(lines: seq<string>, d: seq<Entry>)
    requires Reaches(lines, |lines|, d)
    ensures Session(lines, d) == Err(ReadFailed)
  {
    SessionReaches(lines, |lines|, d);
  }
}
