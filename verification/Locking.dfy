/**
 * Optimistic locking (`inventory/services.py`): several editors load one record and write it back,
 * their steps interleaved in any way. A write is one conditional UPDATE on `record_version`.
 */
module Locking {
  import opened Wrappers
  import opened Versioning

  datatype Record = Record(version: nat, fields: Fields)

  // ------------------------------------------------------------------------------------------
  // One write
  // ------------------------------------------------------------------------------------------

  /** The version a write is made against: the one the form carries, or the instance's own. */
  function Target(copy: Record, expected: Option<nat>): nat {
    if expected.Some? then expected.value else copy.version
  }

  /** `update` by somebody holding a copy: the guard looks at the copy, the UPDATE at the row. */
  function WriteBack(stored: Record, copy: Record, values: Fields, expected: Option<nat>, engineering: set<string>,
                     inUse: bool): Result<Record, Refusal>
  {
    var target := Target(copy, expected);
    if ChangedFields(copy.fields, values) * engineering != {} && inUse then Err(RetroactiveEdit)
    else if stored.version != target then Err(StaleRecord)
    else Ok(Record(target + 1, stored.fields + values))
  }

  /** The instance a write leaves in memory: read again once it is accepted, as it was if the guard
      refused it, and otherwise with the new values and the next version already set on it. */
  function Left(stored: Record, copy: Record, values: Fields, expected: Option<nat>, engineering: set<string>,
                inUse: bool): Record
  {
    match WriteBack(stored, copy, values, expected, engineering, inUse)
    case Ok(after) => after
    case Err(StaleRecord) => Record(Target(copy, expected) + 1, copy.fields + values)
    case Err(_) => copy
  }

  /** A write is refused exactly when the copy says it would alter engineering columns in use, or else the row
      is not at the version named, which is the copy's own where none is. Accepted, it changes the columns it
      names in the row, whatever the copy held, and the version by one. What is left in memory is the row
      when it was accepted, the copy when the guard refused it, and the copy with the changes and the next
      version when the row had moved on. */
  lemma WriteIsDecided(stored: Record, copy: Record, values: Fields, expected: Option<nat>, engineering: set<string>, inUse: bool)
    ensures var outcome := WriteBack(stored, copy, values, expected, engineering, inUse);
            var left := Left(stored, copy, values, expected, engineering, inUse);
            var retroactive := inUse && TouchesEngineering(copy.fields, values, engineering);
            var named := if expected.Some? then expected.value else copy.version;
            && (outcome == Err(RetroactiveEdit) <==> retroactive)
            && (outcome == Err(StaleRecord) <==> !retroactive && stored.version != named)
            && (outcome.Err? ==> outcome.error in {RetroactiveEdit, StaleRecord})
            && (outcome.Ok? ==>
                  && outcome.value.version == stored.version + 1
                  && Overlaid(outcome.value.fields, stored.fields, values) && left == outcome.value)
            && (outcome == Err(RetroactiveEdit) ==> left == copy)
            && (outcome == Err(StaleRecord) ==> left.version == named + 1 && Overlaid(left.fields, copy.fields, values))
  {
    ChangedMeansTouched(copy.fields, values, engineering);
  }

  class EditableRecord {
    var stored: Record

    constructor (initial: Record)
      ensures stored == initial
    {
      stored := initial;
    }

    /** The loop that sets one attribute after another. */
    method Assign(fields: Fields, values: Fields) returns (result: Fields)
      ensures result == fields + values
    {
      result := fields;
      var left := values.Keys;
      while left != {}
        invariant left <= values.Keys
        invariant result.Keys == fields.Keys + (values.Keys - left)
        invariant forall f :: f in values && f !in left ==> f in result && result[f] == values[f]
        invariant forall f :: f in fields && (f !in values || f in left) ==> f in result && result[f] == fields[f]
        decreases |left|
      {
        var f :| f in left;
        result := result[f := values[f]];
        left := left - {f};
      }
    }

    method Update(copy: Record, values: Fields, expected: Option<nat>, engineering: set<string>, inUse: bool)
      returns (refusal: Option<Refusal>, instance: Record)
      modifies this
      ensures match WriteBack(old(stored), copy, values, expected, engineering, inUse)
              case Ok(after) => refusal == None && stored == after
              case Err(e) => refusal == Some(e) && stored == old(stored)
      ensures instance == Left(old(stored), copy, values, expected, engineering, inUse)
    {
      instance := copy;
      if ChangedFields(copy.fields, values) * engineering != {} && inUse {
        return Some(RetroactiveEdit), instance;
      }
      var target := if expected.Some? then expected.value else copy.version;
      var changed := Assign(copy.fields, values);
      instance := Record(target + 1, changed);
      if stored.version != target {
        return Some(StaleRecord), instance;
      }
      var written := Assign(stored.fields, values);
      stored := Record(target + 1, written);
      return None, stored;
    }
  }

  // ------------------------------------------------------------------------------------------
  // Interleavings
  // ------------------------------------------------------------------------------------------

  datatype Event =
    | Load(editor: nat)
    | Write(editor: nat, values: Fields, expected: Option<nat>, inUse: bool)

  /** An accepted write: who, against which version, and what. */
  datatype Success = Success(editor: nat, against: nat, values: Fields)

  /** What an editor holds: the instance in memory, and the record as it was when last read. */
  datatype Copy = Copy(instance: Record, read: Record)

  /** The row, the copies editors hold, and the writes accepted so far. */
  datatype State = State(stored: Record, copies: map<nat, Copy>, accepted: seq<Success>)

  function Next(s: State, e: Event, engineering: set<string>): State {
    match e
    case Load(editor) => s.(copies := s.copies[editor := Copy(s.stored, s.stored)])
    case Write(editor, values, expected, inUse) =>
      if editor !in s.copies then s
      else
        var copy := s.copies[editor];
        var left := Left(s.stored, copy.instance, values, expected, engineering, inUse);
        match WriteBack(s.stored, copy.instance, values, expected, engineering, inUse)
        case Err(_) => s.(copies := s.copies[editor := Copy(left, copy.read)])
        case Ok(after) =>
          State(after, s.copies[editor := Copy(left, after)], s.accepted + [Success(editor, s.stored.version, values)])
  }

  /** Loading reads the row as it is and disturbs nobody else. */
  lemma LoadReadsTheRow(s: State, editor: nat, engineering: set<string>)
    ensures var after := Next(s, Load(editor), engineering);
            && after.stored == s.stored && after.accepted == s.accepted
            && after.copies.Keys == s.copies.Keys + {editor}
            && forall k :: k in after.copies ==>
                 after.copies[k] == if k == editor then Copy(s.stored, s.stored) else s.copies[k]
  {
  }

  function Play(s: State, events: seq<Event>, engineering: set<string>): State
    decreases |events|
  {
    if events == [] then s else Play(Next(s, events[0], engineering), events[1..], engineering)
  }

  /** The values after these writes, one on top of the other. */
  function Replay(fields: Fields, accepted: seq<Success>): Fields {
    if accepted == [] then fields
    else Replay(fields, accepted[..|accepted| - 1]) + accepted[|accepted| - 1].values
  }

  /** This is the record as it stood at the version it carries. */
  ghost predicate AsItStood(start: Record, accepted: seq<Success>, r: Record) {
    && start.version <= r.version <= start.version + |accepted|
    && r.fields == Replay(start.fields, accepted[..r.version - start.version])
  }

  /** The row is what the accepted writes made of it, one version each; and what anybody has read is the
      whole record as it stood at the version it carried then. */
  ghost predicate Serial(start: Record, s: State) {
    && s.stored.version == start.version + |s.accepted| && AsItStood(start, s.accepted, s.stored)
    && (forall k :: 0 <= k < |s.accepted| ==> s.accepted[k].against == start.version + k)
    && (forall editor :: editor in s.copies ==> AsItStood(start, s.accepted, s.copies[editor].read))
  }

  lemma CopiesStayAsTheyStood(start: Record, accepted: seq<Success>, another: Success, r: Record)
    requires AsItStood(start, accepted, r)
    ensures AsItStood(start, accepted + [another], r)
  {
    var n := r.version - start.version;
    assert (accepted + [another])[..n] == accepted[..n];
  }

  lemma NewRowIsAsItStands(start: Record, accepted: seq<Success>, another: Success, row: Record)
    requires AsItStood(start, accepted, row) && row.version == start.version + |accepted|
    ensures AsItStood(start, accepted + [another], Record(row.version + 1, row.fields + another.values))
  {
    var longer := accepted + [another];
    assert longer[..|longer|] == longer && longer[..|accepted|] == accepted && accepted[..|accepted|] == accepted;
  }

  lemma AcceptedWriteKeepsSerial(start: Record, s: State, editor: nat, values: Fields)
    requires Serial(start, s)
    ensures var row := Record(s.stored.version + 1, s.stored.fields + values);
            Serial(start, State(row, s.copies[editor := Copy(row, row)],
                                s.accepted + [Success(editor, s.stored.version, values)]))
  {
    var another := Success(editor, s.stored.version, values);
    NewRowIsAsItStands(start, s.accepted, another, s.stored);
    forall other | other in s.copies
      ensures AsItStood(start, s.accepted + [another], s.copies[other].read)
    {
      CopiesStayAsTheyStood(start, s.accepted, another, s.copies[other].read);
    }
  }

  lemma RefusedWriteKeepsSerial(start: Record, s: State, editor: nat, instance: Record)
    requires Serial(start, s) && editor in s.copies
    ensures Serial(start, s.(copies := s.copies[editor := Copy(instance, s.copies[editor].read)]))
  {
  }

  lemma LoadKeepsSerial(start: Record, s: State, editor: nat)
    requires Serial(start, s)
    ensures Serial(start, s.(copies := s.copies[editor := Copy(s.stored, s.stored)]))
  {
  }

  lemma WriteKeepsSerial(start: Record, s: State, e: Event, engineering: set<string>)
    requires Serial(start, s) && e.Write? && e.editor in s.copies
    ensures Serial(start, Next(s, e, engineering))
  {
    var instance := s.copies[e.editor].instance;
    var outcome := WriteBack(s.stored, instance, e.values, e.expected, engineering, e.inUse);
    if outcome.Ok? {
      AcceptedWriteKeepsSerial(start, s, e.editor, e.values);
      assert outcome.value == Record(s.stored.version + 1, s.stored.fields + e.values);
    } else {
      RefusedWriteKeepsSerial(start, s, e.editor, Left(s.stored, instance, e.values, e.expected, engineering, e.inUse));
    }
  }

  lemma NextKeepsSerial(start: Record, s: State, e: Event, engineering: set<string>)
    requires Serial(start, s)
    ensures Serial(start, Next(s, e, engineering))
  {
    match e {
      case Load(editor) => LoadKeepsSerial(start, s, editor);
      case Write(editor, _, _, _) =>
        if editor in s.copies {
          WriteKeepsSerial(start, s, e, engineering);
        }
    }
  }

  lemma {:induction false} PlayIsSerial(start: Record, s: State, events: seq<Event>, engineering: set<string>)
    requires Serial(start, s)
    ensures Serial(start, Play(s, events, engineering))
    decreases |events|
  {
    if events != [] {
      NextKeepsSerial(start, s, events[0], engineering);
      PlayIsSerial(start, Next(s, events[0], engineering), events[1..], engineering);
    }
  }

  function Start(start: Record): State {
    State(start, map[], [])
  }

  /** Whatever the interleaving: the version has grown by one for each accepted write, and no two of
      them were made against the same version. */
  lemma EachVersionIsWrittenOnce(start: Record, events: seq<Event>, engineering: set<string>)
    ensures var s := Play(Start(start), events, engineering);
            && s.stored.version == start.version + |s.accepted|
            && forall j, k :: 0 <= j < k < |s.accepted| ==> s.accepted[j].against < s.accepted[k].against
  {
    PlayIsSerial(start, Start(start), events, engineering);
  }

  /** The value the last of these writes to name a field gave it. */
  function LastWritten(accepted: seq<Success>, f: string): Option<int> {
    if accepted == [] then None
    else
      var last := accepted[|accepted| - 1];
      if f in last.values then Some(last.values[f]) else LastWritten(accepted[..|accepted| - 1], f)
  }

  lemma {:induction false} ReplayHoldsLastWritten(fields: Fields, accepted: seq<Success>, f: string)
    ensures match LastWritten(accepted, f)
            case Some(x) => f in Replay(fields, accepted) && Replay(fields, accepted)[f] == x
            case None => (f in Replay(fields, accepted) <==> f in fields)
                         && (f in fields ==> Replay(fields, accepted)[f] == fields[f])
    decreases |accepted|
  {
    if accepted != [] {
      ReplayHoldsLastWritten(fields, accepted[..|accepted| - 1], f);
    }
  }

  /** And each field holds what the last accepted write to name it put there. */
  lemma EachFieldHoldsItsLastWriter(start: Record, events: seq<Event>, engineering: set<string>, f: string)
    ensures var s := Play(Start(start), events, engineering);
            match LastWritten(s.accepted, f)
            case Some(x) => f in s.stored.fields && s.stored.fields[f] == x
            case None => (f in s.stored.fields <==> f in start.fields)
                         && (f in start.fields ==> s.stored.fields[f] == start.fields[f])
  {
    var s := Play(Start(start), events, engineering);
    PlayIsSerial(start, Start(start), events, engineering);
    assert s.accepted[..|s.accepted|] == s.accepted;
    ReplayHoldsLastWritten(start.fields, s.accepted, f);
  }

  /** An accepted write loses nobody's edit, because its author had read the record as it stood, exactly
      when the version it was made against is the one its author read. */
  lemma AcceptedWriteHadSeenEverythingIff(start: Record, events: seq<Event>, e: Event, engineering: set<string>)
    requires e.Write? && e.editor in Play(Start(start), events, engineering).copies
    ensures var s := Play(Start(start), events, engineering);
            var copy := s.copies[e.editor];
            |Next(s, e, engineering).accepted| > |s.accepted| ==>
              && (copy.read == s.stored <==> Target(copy.instance, e.expected) == copy.read.version)
              && Next(s, e, engineering).stored == Record(s.stored.version + 1, s.stored.fields + e.values)
  {
    PlayIsSerial(start, Start(start), events, engineering);
  }

  /** The instance is as it was read, and a form carries no version or one it was shown no later. */
  predicate FromAForm(s: State, e: Event) {
    && e.Write? && e.editor in s.copies
    && s.copies[e.editor].instance == s.copies[e.editor].read
    && (e.expected.Some? ==> e.expected.value <= s.copies[e.editor].read.version)
  }

  /** So it is for every write that comes from a form, whose instance is read afresh: no accepted edit is
      lost, and what the guard looked at was the record itself. */
  lemma AcceptedFormsHadSeenEverything(start: Record, events: seq<Event>, e: Event, engineering: set<string>)
    requires FromAForm(Play(Start(start), events, engineering), e)
    ensures var s := Play(Start(start), events, engineering); var after := Next(s, e, engineering);
            |after.accepted| > |s.accepted| ==>
              && s.copies[e.editor].read == s.stored
              && (e.inUse ==> SameEngineering(s.stored.fields, after.stored.fields, engineering))
  {
    var s := Play(Start(start), events, engineering);
    PlayIsSerial(start, Start(start), events, engineering);
    if |Next(s, e, engineering).accepted| > |s.accepted| && e.inUse {
      forall f | f in engineering && f in e.values
        ensures f in s.stored.fields && s.stored.fields[f] == e.values[f]
      {
        assert f !in ChangedFields(s.stored.fields, e.values) * engineering;
      }
    }
  }

  /** An instance that a refused write has left behind is another matter: written again without a version,
      it overwrites the edit it had lost to, unseen. */
  lemma LeftoverInstanceOverwrites()
    ensures var start := Record(1, map["x" := 0]);
            var first, second := Write(1, map["x" := 1], None, false), Write(2, map["x" := 2], None, false);
            var refused := Play(Start(start), [Load(1), Load(2), first, second], {});
            var retried := Next(refused, second, {});
            && refused.stored == Record(2, map["x" := 1]) && |refused.accepted| == 1
            && |retried.accepted| == 2 && retried.stored == Record(3, map["x" := 2])
            && refused.copies[2].read == start
  {
    var start := Record(1, map["x" := 0]);
    var first, second := Write(1, map["x" := 1], None, false), Write(2, map["x" := 2], None, false);
    var s1 := Next(Start(start), Load(1), {});
    var s2 := Next(s1, Load(2), {});
    var s3 := Next(s2, first, {});
    var s4 := Next(s3, second, {});
    assert s3.stored == Record(2, map["x" := 1]);
    assert s4.copies[2] == Copy(Record(2, map["x" := 2]), start);
    var events := [Load(1), Load(2), first, second];
    assert events[1..] == [Load(2), first, second] && events[1..][1..] == [first, second];
    assert [first, second][1..] == [second] && [second][1..] == [];
    assert Play(s4, [], {}) == s4 && Play(s3, [second], {}) == s4 && Play(s2, [first, second], {}) == s4;
    assert Play(s1, [Load(2), first, second], {}) == s4;
  }

  /** And a write that is refused as stale really is: an accepted one was made against the version it
      names, or against a later one, unless it names a version that has never been. */
  lemma RefusedWritesMissedSomething(start: Record, events: seq<Event>, e: Event, engineering: set<string>)
    requires e.Write? && e.editor in Play(Start(start), events, engineering).copies
    ensures var s := Play(Start(start), events, engineering);
            var target := Target(s.copies[e.editor].instance, e.expected);
            WriteBack(s.stored, s.copies[e.editor].instance, e.values, e.expected, engineering, e.inUse) == Err(StaleRecord) ==>
              || !(start.version <= target <= s.stored.version)
              || exists k :: 0 <= k < |s.accepted| && s.accepted[k].against >= target
  {
    var s := Play(Start(start), events, engineering);
    PlayIsSerial(start, Start(start), events, engineering);
    var target := Target(s.copies[e.editor].instance, e.expected);
    if start.version <= target < s.stored.version {
      assert s.accepted[|s.accepted| - 1].against == s.stored.version - 1;
    }
  }
}
