/** Device identity and the per-device sequencer, kept as text values in the
    `meta` key/value table (src/db/database.js: initDatabase, getDeviceId,
    getNextDeviceSeq).
 */
module Device {
  import opened Common
  import opened JsText

  /** The `meta` table: key to text value. */
  type Meta = map<string, string>

  const DeviceIdKey := "device_id"
  const DeviceSeqKey := "device_seq"
  const LastSyncKey := "last_sync"

  /** What `getDeviceId` answers when no usable id is stored. */
  const UnknownDevice := "unknown"

  /** The state reached by a step, and what the step returned or threw.
      A throw does not undo the statements that ran before it. */
  datatype After<S, T> = After(state: S, result: Result<T>)

  /** `INSERT INTO meta (key, value)`: fails on an existing key (PRIMARY KEY). */
  function MetaInsert(m: Meta, k: string, v: string): (r: Result<Meta>)
    ensures r.Ok? <==> k !in m
    ensures r.Ok? ==> r.value == m[k := v]
  {
    if k in m then Err("UNIQUE constraint failed: meta.key") else Ok(m[k := v])
  }

  /** `UPDATE meta SET value = v WHERE key = k`: no row changes when the key is absent. */
  function MetaUpdate(m: Meta, k: string, v: string): (r: Meta)
    ensures k in m ==> r == m[k := v]
    ensures k !in m ==> r == m
  {
    if k in m then m[k := v] else m
  }

  /** The meta rows `initDatabase` creates for a new device. */
  predicate Bootstrapped(m: Meta) {
    DeviceIdKey in m && DeviceSeqKey in m && LastSyncKey in m
  }

  /** The meta bootstrap of `initDatabase`: when no `device_id` row exists it
      inserts `device_id`, then `device_seq = '0'`, then `last_sync = ''`,
      one statement at a time; otherwise it changes nothing. */
  function InitMeta(m: Meta, freshId: string): (r: After<Meta, ()>)
    ensures DeviceIdKey in m ==> r == After(m, Ok(()))
    ensures DeviceIdKey !in m && DeviceSeqKey !in m && LastSyncKey !in m ==>
              r == After(m[DeviceIdKey := freshId][DeviceSeqKey := "0"][LastSyncKey := ""], Ok(()))
    ensures DeviceIdKey in r.state && forall k :: k in m ==> k in r.state && r.state[k] == m[k]
    ensures DeviceIdKey !in m && r.result.Ok? ==> Bootstrapped(r.state)
  {
    if DeviceIdKey in m then After(m, Ok(()))
    else
      var withId := m[DeviceIdKey := freshId];
      match MetaInsert(withId, DeviceSeqKey, "0")
      case Err(e) => After(withId, Err(e))
      case Ok(withSeq) =>
        match MetaInsert(withSeq, LastSyncKey, "")
        case Err(e) => After(withSeq, Err(e))
        case Ok(full) => After(full, Ok(()))
  }

  /** A second initialisation changes nothing: the bootstrap is idempotent. */
  lemma InitMetaIdempotent(m: Meta, id1: string, id2: string)
    ensures InitMeta(InitMeta(m, id1).state, id2) == After(InitMeta(m, id1).state, Ok(()))
  {
  }

  /** `getDeviceId`: the stored id, or "unknown" when the row is missing or empty. */
  function GetDeviceId(m: Meta): (r: string)
    ensures DeviceIdKey in m && m[DeviceIdKey] != "" ==> r == m[DeviceIdKey]
    ensures !(DeviceIdKey in m && m[DeviceIdKey] != "") ==> r == UnknownDevice
  {
    if DeviceIdKey in m && m[DeviceIdKey] != "" then m[DeviceIdKey] else UnknownDevice
  }

  /** A fresh device reports the id it was initialised with, and every later
      initialisation keeps reporting it. */
  lemma {:induction false} DeviceIdStable(m: Meta, freshId: string, laterId: string)
    requires DeviceIdKey !in m && freshId != ""
    ensures GetDeviceId(InitMeta(m, freshId).state) == freshId
    ensures GetDeviceId(InitMeta(InitMeta(m, freshId).state, laterId).state) == freshId
  {
    InitMetaIdempotent(m, freshId, laterId);
  }

  /** A JavaScript number as the sequencer can produce it: an integer or NaN. */
  datatype JsNum = Num(n: int) | NaN

  function JsNumText(x: JsNum): string {
    match x
    case Num(n) => IntToString(n)
    case NaN => "NaN"
  }

  /** The counter column holds the canonical text of `n`. */
  predicate CounterAt(m: Meta, n: int) {
    DeviceSeqKey in m && m[DeviceSeqKey] == IntToString(n)
  }

  /** `parseInt(stored || '0')`: the counter as `getNextDeviceSeq` reads it,
      a missing or empty row counting as "0"; `None` is NaN. */
  function StoredCounter(m: Meta): Option<int> {
    ParseInt(if DeviceSeqKey in m && m[DeviceSeqKey] != "" then m[DeviceSeqKey] else "0")
  }

  /** JavaScript `x + 1` on the parsed counter: NaN stays NaN. */
  function Successor(x: Option<int>): JsNum {
    match x
    case Some(v) => Num(v + 1)
    case None => NaN
  }

  /** `getNextDeviceSeq`: the stored counter plus one, written back with
      `UPDATE` and returned.  `persistOk` is false when that UPDATE throws;
      the counter is then unchanged and the call fails. */
  function NextDeviceSeq(m: Meta, persistOk: bool): (r: After<Meta, JsNum>)
    ensures !persistOk ==> r.state == m && r.result.Err?
    ensures persistOk ==> r.result.Ok?
  {
    var next := Successor(StoredCounter(m));
    if !persistOk then After(m, Err("failed to persist device_seq"))
    else After(MetaUpdate(m, DeviceSeqKey, JsNumText(next)), Ok(next))
  }

  /** With no `device_seq` row the missing value counts as 0, so every call
      answers 1 and, the UPDATE matching no row, nothing is persisted. */
  lemma NextDeviceSeqWithoutCounter(m: Meta)
    requires DeviceSeqKey !in m
    ensures NextDeviceSeq(m, true) == After(m, Ok(Num(1)))
  {
    ParseIntOfIntToString(0);
    assert IntToString(0) == "0";
  }

  /** From a counter at `n`, the sequencer issues `n + 1` and leaves the
      counter at `n + 1`, touching no other meta row. */
  lemma NextDeviceSeqFromCounter(m: Meta, n: int)
    requires CounterAt(m, n)
    ensures NextDeviceSeq(m, true) == After(m[DeviceSeqKey := IntToString(n + 1)], Ok(Num(n + 1)))
  {
    ParseIntOfIntToString(n);
  }

  /** A sequencer that, from a counter at `n`, answers `n + 1` and leaves the
      counter at `n + 1`. */
  ghost predicate CountsUp(draw: Meta -> After<Meta, JsNum>) {
    forall m, n :: CounterAt(m, n) ==> draw(m) == After(m[DeviceSeqKey := IntToString(n + 1)], Ok(Num(n + 1)))
  }

  /** `k` consecutive calls of `draw`, stopping at the first failure: the
      final meta and the values issued, in order. */
  function Draws(draw: Meta -> After<Meta, JsNum>, m: Meta, k: nat): (Meta, seq<JsNum>)
    decreases k
  {
    if k == 0 then (m, [])
    else
      match draw(m)
      case After(next, Ok(v)) =>
        var rest := Draws(draw, next, k - 1);
        (rest.0, [v] + rest.1)
      case After(next, Err(_)) => (next, [])
  }

  lemma {:induction false} DrawsConsecutive(draw: Meta -> After<Meta, JsNum>, m: Meta, n: int, k: nat)
    requires CountsUp(draw) && CounterAt(m, n)
    ensures |Draws(draw, m, k).1| == k
    ensures forall i :: 0 <= i < k ==> Draws(draw, m, k).1[i] == Num(n + 1 + i)
    ensures Draws(draw, m, k).0 == m[DeviceSeqKey := IntToString(n + k)]
    decreases k
  {
    if k == 0 {
      assert n + k == n;
    } else {
      var m1 := m[DeviceSeqKey := IntToString(n + 1)];
      assert draw(m) == After(m1, Ok(Num(n + 1)));
      DrawsConsecutive(draw, m1, n + 1, k - 1);
      var rest := Draws(draw, m1, k - 1).1;
      var issued := Draws(draw, m, k).1;
      assert issued == [Num(n + 1)] + rest;
      assert n + 1 + (k - 1) == n + k;
      forall i | 0 <= i < k ensures issued[i] == Num(n + 1 + i) {
        if i > 0 {
          assert issued[i] == rest[i - 1];
        }
      }
    }
  }

  /** One successful call of `getNextDeviceSeq`. */
  function DrawSeq(m: Meta): After<Meta, JsNum> {
    NextDeviceSeq(m, true)
  }

  lemma SequencerCountsUp()
    ensures CountsUp(DrawSeq)
  {
    forall m, n | CounterAt(m, n)
      ensures DrawSeq(m) == After(m[DeviceSeqKey := IntToString(n + 1)], Ok(Num(n + 1)))
    {
      NextDeviceSeqFromCounter(m, n);
    }
  }

  /** From a counter at `n`, `k` consecutive calls issue exactly n+1, ..., n+k:
      strictly increasing, no duplicates and no gaps. */
  lemma IssueSeqsConsecutive(m: Meta, n: int, k: nat)
    requires CounterAt(m, n)
    ensures |Draws(DrawSeq, m, k).1| == k
    ensures forall i :: 0 <= i < k ==> Draws(DrawSeq, m, k).1[i] == Num(n + 1 + i)
    ensures Draws(DrawSeq, m, k).0 == m[DeviceSeqKey := IntToString(n + k)]
  {
    SequencerCountsUp();
    DrawsConsecutive(DrawSeq, m, n, k);
  }
}
