/**
 * Store-and-forward delivery of encoded reports (drone_edge/drone.py,
 * _send_report and _retry_unsent_reports_loop). The `unsent` directory is a
 * map from file name to the stored bytes; the collector's side of the
 * connection is the sequence of byte strings it has received. Whether the
 * collector is reachable for a given attempt is an input.
 */
module StoreForward {
  import opened Messages

  datatype Outbox = Outbox(unsent: map<string, seq<byte>>, collector: seq<seq<byte>>)

  /**
   * One delivery attempt of freshly encoded report bytes: sent when the
   * collector is reachable, otherwise written to the file `key`.
   */
  function Delivered(o: Outbox, bytes: seq<byte>, reachable: bool, key: string): (r: Outbox)
    ensures reachable ==> r.unsent == o.unsent && r.collector == o.collector + [bytes]
    ensures !reachable ==> r.collector == o.collector && key in r.unsent && r.unsent[key] == bytes
    ensures !reachable ==> forall k :: k in o.unsent && k != key ==> k in r.unsent && r.unsent[k] == o.unsent[k]
    ensures !reachable ==> r.unsent.Keys == o.unsent.Keys + {key}
  {
    if reachable then o.(collector := o.collector + [bytes])
    else o.(unsent := o.unsent[key := bytes])
  }

  /** A failed send under a fresh name adds exactly one file, holding exactly the report's bytes. */
  lemma FailedSendStoresOne(o: Outbox, bytes: seq<byte>, key: string)
    requires key !in o.unsent
    ensures |Delivered(o, bytes, false, key).unsent| == |o.unsent| + 1
  {
    assert Delivered(o, bytes, false, key).unsent.Keys == o.unsent.Keys + {key};
  }

  /**
   * One file of a retry pass: a file that is gone is skipped; otherwise its
   * exact bytes are re-sent and the file is deleted only if the send succeeded.
   */
  function RetryOne(o: Outbox, name: string, reachable: bool): Outbox
  {
    if name in o.unsent && reachable then
      Outbox(o.unsent - {name}, o.collector + [o.unsent[name]])
    else o
  }

  /** A retry pass over the listed file names, with the collector's reachability at each attempt. */
  function RetryPass(o: Outbox, names: seq<string>, reachable: seq<bool>): Outbox
    requires |names| == |reachable|
    decreases |names|
  {
    if names == [] then o
    else RetryPass(RetryOne(o, names[0], reachable[0]), names[1..], reachable[1..])
  }

  /** `m` holds a subset of the files of `o`, each one byte-identical. */
  predicate Retained(o: map<string, seq<byte>>, m: map<string, seq<byte>>)
  {
    m.Keys <= o.Keys && forall k :: k in m ==> m[k] == o[k]
  }

  /**
   * A retry pass only removes files and only after sending them: what stays
   * is byte-identical, the collector's stream is extended, every removed
   * file's bytes were sent during the pass, and exactly one send happened
   * per removed file.
   */
  lemma {:induction false} RetryPassSound(o: Outbox, names: seq<string>, reachable: seq<bool>)
    requires |names| == |reachable|
    ensures var r := RetryPass(o, names, reachable);
      && Retained(o.unsent, r.unsent)
      && o.collector <= r.collector
      && (forall k :: k in o.unsent && k !in r.unsent ==> o.unsent[k] in r.collector[|o.collector|..])
      && |r.collector| - |o.collector| == |o.unsent| - |r.unsent|
    decreases |names|
  {
    if names != [] {
      var o1 := RetryOne(o, names[0], reachable[0]);
      RetryPassSound(o1, names[1..], reachable[1..]);
      var r := RetryPass(o1, names[1..], reachable[1..]);
      assert r == RetryPass(o, names, reachable);
      if names[0] in o.unsent && reachable[0] {
        assert |o1.unsent| == |o.unsent| - 1 by {
          assert o1.unsent.Keys == o.unsent.Keys - {names[0]};
        }
        assert r.collector[|o.collector|..] == [o.unsent[names[0]]] + r.collector[|o1.collector|..] by {
          assert r.collector[|o.collector|] == o1.collector[|o.collector|];
        }
      }
    }
  }

  /** A pass during which the collector stays unreachable leaves every file present and byte-identical. */
  lemma {:induction false} RetryUnreachableIdle(o: Outbox, names: seq<string>, reachable: seq<bool>)
    requires |names| == |reachable|
    requires forall i :: 0 <= i < |reachable| ==> !reachable[i]
    ensures RetryPass(o, names, reachable) == o
    decreases |names|
  {
    if names != [] {
      RetryUnreachableIdle(o, names[1..], reachable[1..]);
    }
  }

  /** A pass that lists every file and reaches the collector each time empties the directory. */
  lemma {:induction false} RetryReachableDrains(o: Outbox, names: seq<string>, reachable: seq<bool>)
    requires |names| == |reachable|
    requires forall k :: k in o.unsent ==> k in names
    requires forall i :: 0 <= i < |reachable| ==> reachable[i]
    ensures RetryPass(o, names, reachable).unsent == map[]
    decreases |names|
  {
    if names == [] {
      assert o.unsent.Keys == {};
    } else {
      var o1 := RetryOne(o, names[0], reachable[0]);
      forall k | k in o1.unsent ensures k in names[1..] {
        assert k in names && k != names[0];
        var i :| 0 <= i < |names| && names[i] == k;
        assert names[1..][i - 1] == k;
      }
      RetryReachableDrains(o1, names[1..], reachable[1..]);
    }
  }

  /**
   * Delivery failure then success: a report stored while the collector was
   * down is delivered by a later pass that lists it and reaches the
   * collector, and no copy of it is left in the directory.
   */
  lemma StoredThenResent(o: Outbox, bytes: seq<byte>, key: string, names: seq<string>, reachable: seq<bool>)
    requires |names| == |reachable|
    requires forall k :: k in o.unsent ==> k in names
    requires key in names
    requires forall i :: 0 <= i < |reachable| ==> reachable[i]
    ensures var stored := Delivered(o, bytes, false, key);
      && RetryPass(stored, names, reachable).unsent == map[]
      && |o.collector| <= |RetryPass(stored, names, reachable).collector|
      && bytes in RetryPass(stored, names, reachable).collector[|o.collector|..]
  {
    var stored := Delivered(o, bytes, false, key);
    RetryReachableDrains(stored, names, reachable);
    RetryPassSound(stored, names, reachable);
  }
}
