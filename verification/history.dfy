/** A registry seen as the result of its history: a fresh registry followed
    by a sequence of `setIteratorClass` calls. Lookup on the replayed map is
    related to an independent reference: the class of the last call whose
    name matches ignoring case, else the built-in entry, else a miss. */
module RegistryHistory {
  import opened Wrappers
  import opened Ascii
  import opened SplashRegistry

  /** One call `setIteratorClass(shortname, cls)`. */
  datatype SetCall = SetCall(shortname: string, cls: Option<string>)

  /** The registry after a fresh start and then `calls`, in order. Every
      reachable registry keeps its keys lower-cased. */
  function Replay(calls: seq<SetCall>): (r: Registry)
    ensures Normalized(r)
    decreases |calls|
  {
    if calls == [] then Fresh()
    else
      var last := calls[|calls| - 1];
      SetIteratorClass(Replay(calls[..|calls| - 1]), last.shortname, last.cls)
  }

  /** The value written by the last call whose name equals `name` ignoring
      case, or `None` when no call wrote that name. */
  function LastWrite(calls: seq<SetCall>, name: string): Option<Option<string>>
    decreases |calls|
  {
    if calls == [] then None
    else if EqualsIgnoreCase(calls[|calls| - 1].shortname, name) then Some(calls[|calls| - 1].cls)
    else LastWrite(calls[..|calls| - 1], name)
  }

  /** What a lookup of `name` should report after `calls`. */
  function Expected(calls: seq<SetCall>, name: string): Option<string>
  {
    match LastWrite(calls, name)
    case Some(written) => written
    case None => if EqualsIgnoreCase(name, DefaultName) then Some(DefaultClass) else None
  }

  /** Lookup on the replayed registry agrees with the reference for every
      history and every name. */
  lemma {:induction false} ReplayMatchesReference(calls: seq<SetCall>, name: string)
    ensures GetIteratorClass(Replay(calls), name) == Expected(calls, name)
    decreases |calls|
  {
    if calls == [] {
      FreshLookup(name);
    } else {
      var prefix, last := calls[..|calls| - 1], calls[|calls| - 1];
      SameNameIff(last.shortname, name);
      if EqualsIgnoreCase(last.shortname, name) {
        assert SameName(name, last.shortname);
      } else {
        SetLeavesOthers(Replay(prefix), last.shortname, name, last.cls);
        ReplayMatchesReference(prefix, name);
      }
    }
  }

  /** No call ever wrote any case variant of `name`. */
  predicate NeverWritten(calls: seq<SetCall>, name: string) {
    forall i :: 0 <= i < |calls| ==> !EqualsIgnoreCase(calls[i].shortname, name)
  }

  /** A name no call wrote has no last write. */
  lemma {:induction false} NeverWrittenHasNoLastWrite(calls: seq<SetCall>, name: string)
    requires NeverWritten(calls, name)
    ensures LastWrite(calls, name) == None
    decreases |calls|
  {
    if calls != [] {
      NeverWrittenHasNoLastWrite(calls[..|calls| - 1], name);
    }
  }

  /** A name that was never written and is not the built-in one is reported
      as a miss, not as an error. */
  lemma MissIsReported(calls: seq<SetCall>, name: string)
    requires NeverWritten(calls, name)
    requires !EqualsIgnoreCase(name, DefaultName)
    ensures GetIteratorClass(Replay(calls), name) == None
  {
    NeverWrittenHasNoLastWrite(calls, name);
    ReplayMatchesReference(calls, name);
  }

  /** A name written at least once reads back the last class written under
      any of its case variants (a miss when that class is `NULL`). */
  lemma LastMatchingCallDecides(calls: seq<SetCall>, name: string, i: nat)
    requires i < |calls| && EqualsIgnoreCase(calls[i].shortname, name)
    requires forall j :: i < j < |calls| ==> !EqualsIgnoreCase(calls[j].shortname, name)
    ensures GetIteratorClass(Replay(calls), name) == calls[i].cls
  {
    ReplayMatchesReference(calls, name);
    LastWriteAt(calls, name, i);
  }

  /** The last call matching the name is the one `LastWrite` finds. */
  lemma {:induction false} LastWriteAt(calls: seq<SetCall>, name: string, i: nat)
    requires i < |calls| && EqualsIgnoreCase(calls[i].shortname, name)
    requires forall j :: i < j < |calls| ==> !EqualsIgnoreCase(calls[j].shortname, name)
    ensures LastWrite(calls, name) == Some(calls[i].cls)
    decreases |calls|
  {
    if i < |calls| - 1 {
      var prefix := calls[..|calls| - 1];
      assert prefix[i] == calls[i];
      forall j | i < j < |prefix|
        ensures !EqualsIgnoreCase(prefix[j].shortname, name)
      {
        assert prefix[j] == calls[j];
      }
      LastWriteAt(prefix, name, i);
    }
  }
}
