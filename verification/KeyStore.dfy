/** The external key store (an openbao or vault transit engine) as the commands of openbao_key_manager.cpp see it. */
module KeyStore {
  import opened Bytes
  import opened KeyNames
  import Base64

  /** A transit key: its material, its creation time in seconds, and the two switches of its configuration. */
  datatype StoredKey = StoredKey(material: bytes, time: int, exportable: bool, deletable: bool)

  type Store = map<bytes, StoredKey>

  /** "write -f transit/keys/N": a new key with both switches off; an existing key is left alone. */
  function Created(st: Store, name: bytes, made: StoredKey): Store {
    if name in st then st else st[name := made.(exportable := false, deletable := false)]
  }

  /** "write transit/keys/N/config": allows deletion, and export when that is asked for; nothing turns export off. */
  function Configured(st: Store, name: bytes, exportable: bool): Option<Store> {
    if name !in st then None
    else Some(st[name := st[name].(exportable := st[name].exportable || exportable, deletable := true)])
  }

  /** "delete transit/keys/N". */
  function Deleted(st: Store, name: bytes): Option<Store> {
    if name in st && st[name].deletable then Some(st - {name}) else None
  }

  /** How an external command ends. Ran: the store carries it out, or refuses it. Fails: it has no effect and is
      reported as failed. Unreported: the store carries it out, but it is reported as failed. Silent and Garbled: it
      has no effect but is reported as a success, without any output or with output that is no reply; a command that
      dies counts as a success when what it printed so far is a prefix of the empty listing. */
  datatype Cmd = Ran | Fails | Unreported | Silent | Garbled

  /** The store after a command that is reported as a success, or None when it is reported as failed; ran is what
      running it does. */
  function Effect(cmd: Cmd, st: Store, ran: Option<Store>): Option<Store> {
    match cmd
    case Ran => ran
    case Silent => Some(st)
    case Garbled => Some(st)
    case _ => None
  }

  /** The store after a command, whatever is reported. */
  function After(cmd: Cmd, st: Store, ran: Option<Store>): Store {
    if (cmd == Ran || cmd == Unreported) && ran.Some? then ran.value else st
  }

  // ----- Creation times -----

  predicate AllInts(times: seq<Option<int>>) {
    forall i :: 0 <= i < |times| ==> times[i].Some?
  }

  function Greatest(times: seq<Option<int>>): int
    requires AllInts(times)
  {
    if times == [] then -1
    else
      var m := Greatest(times[..|times| - 1]);
      if times[|times| - 1].value > m then times[|times| - 1].value else m
  }

  /** GetJsonFieldMaxInt on the creation times of a key's versions (one for keys made here): the greatest, or -1 when
      there is none above, or when a field is no integer. */
  function MaxInt(times: seq<Option<int>>): int {
    if AllInts(times) then Greatest(times) else -1
  }

  method GetJsonFieldMaxInt(times: seq<Option<int>>) returns (ret: int)
    ensures ret == MaxInt(times) >= -1
    ensures !AllInts(times) ==> ret == -1
    ensures AllInts(times) ==> forall i :: 0 <= i < |times| ==> times[i].value <= ret
    ensures ret == -1 || Some(ret) in times
  {
    ret := -1;
    var i := 0;
    while i < |times|
      invariant 0 <= i <= |times|
      invariant AllInts(times[..i]) && ret == Greatest(times[..i]) && ret >= -1
      invariant forall j :: 0 <= j < i ==> times[j].Some? && times[j].value <= ret
      invariant ret == -1 || Some(ret) in times[..i]
    {
      if times[i].None? {
        return -1;
      }
      assert times[..i + 1][..i] == times[..i];
      ret := if times[i].value > ret then times[i].value else ret;
      i := i + 1;
    }
    assert times[..i] == times;
  }

  /** The creation time is a number that IsInt accepts, which means 32 bits, and it is not negative. */
  predicate HasTime(key: StoredKey) {
    0 <= key.time < I32_LIMIT
  }

  /** What GetJsonFieldMaxInt makes of the printed key. */
  function ReportedTime(key: StoredKey): int {
    MaxInt([TimeField(key)])
  }

  function TimeField(key: StoredKey): Option<int> {
    if -I32_LIMIT <= key.time < I32_LIMIT then Some(key.time) else None
  }

  lemma ReportedTimeIsTime(key: StoredKey)
    ensures ReportedTime(key) == if HasTime(key) then key.time else -1
  {
    var ts := [TimeField(key)];
    assert ts[0] == TimeField(key);
    if TimeField(key).Some? {
      assert ts[..|ts| - 1] == [] && Greatest([]) == -1;
      assert Greatest(ts)
          == if ts[0].value > Greatest(ts[..|ts| - 1]) then ts[0].value else Greatest(ts[..|ts| - 1]);
    }
  }

  /** What reading a key's creation time gives: a failure, no output at all, or output with a time (-1 for none). */
  datatype Reading = NoReading | NoOutput | Reading(time: int)
  {
    /** GetJsonFieldMaxInt on the output. */
    function Time(): int
      requires !NoReading?
    {
      if Reading? then time else -1
    }
  }

  function ReadKey(st: Store, name: bytes, cmd: Cmd): Reading {
    match cmd
    case Ran => if name in st then Reading(ReportedTime(st[name])) else NoReading
    case Fails => NoReading
    case Unreported => NoReading
    case Silent => NoOutput
    case Garbled => Reading(-1)
  }

  class Bao {
    var keys: Store

    /** Runs "write -f". */
    method WriteKey(name: bytes, made: StoredKey, cmd: Cmd) returns (success: bool)
      modifies this
      ensures success <==> Effect(cmd, old(keys), Some(Created(old(keys), name, made))).Some?
      ensures keys == After(cmd, old(keys), Some(Created(old(keys), name, made)))
    {
      success := cmd != Fails && cmd != Unreported;
      if (cmd == Ran || cmd == Unreported) && name !in keys {
        keys := keys[name := made.(exportable := false, deletable := false)];
      }
    }

    method WriteConfig(name: bytes, exportable: bool, cmd: Cmd) returns (success: bool)
      modifies this
      ensures success <==> Effect(cmd, old(keys), Configured(old(keys), name, exportable)).Some?
      ensures keys == After(cmd, old(keys), Configured(old(keys), name, exportable))
    {
      success := cmd == Silent || cmd == Garbled || (cmd == Ran && name in keys);
      if (cmd == Ran || cmd == Unreported) && name in keys {
        var key := keys[name];
        keys := keys[name := key.(exportable := key.exportable || exportable, deletable := true)];
      }
    }

    method Delete(name: bytes, cmd: Cmd) returns (success: bool)
      modifies this
      ensures success <==> Effect(cmd, old(keys), Deleted(old(keys), name)).Some?
      ensures keys == After(cmd, old(keys), Deleted(old(keys), name))
    {
      success := cmd == Silent || cmd == Garbled || (cmd == Ran && name in keys && keys[name].deletable);
      if (cmd == Ran || cmd == Unreported) && name in keys && keys[name].deletable {
        keys := keys - {name};
      }
    }

    method ReadTime(name: bytes, cmd: Cmd) returns (r: Reading)
      ensures r == ReadKey(keys, name, cmd)
    {
      match cmd {
        case Fails => r := NoReading;
        case Unreported => r := NoReading;
        case Silent => r := NoOutput;
        case Garbled => r := Reading(-1);
        case Ran =>
          if name !in keys {
            return NoReading;
          }
          var time := GetJsonFieldMaxInt([TimeField(keys[name])]);
          r := Reading(time);
      }
    }

    /** "read transit/export/encryption-key/N": only exportable keys. */
    method Export(name: bytes, runs: bool) returns (material: Option<bytes>)
      ensures material == Exported(keys, name, runs)
    {
      if !runs || name !in keys || !keys[name].exportable {
        return None;
      }
      var printed := Base64.Encode(keys[name].material);
      material := if SaysError(printed) then None else Some(keys[name].material);
    }
  }

  /** The material, when the command runs; without a reply there is none. It is printed in Base64, and a print that
      contains "Error" counts as a failure. */
  function Exported(st: Store, name: bytes, runs: bool): Option<bytes> {
    if runs && name in st && st[name].exportable && !SaysError(Base64.Encode(st[name].material)) then
      Some(st[name].material)
    else None
  }
}
