/** The webhook helpers of app/helpers.py: `fix_keys`, which renames the JSON key `from` to
    `from_` at every depth before the payload is validated, and `get_message_type`, which finds
    the type of the first message a webhook carries. */
module Helpers {
  import opened Wrappers
  import PyStr

  /** A decoded JSON document as Python holds it: objects are dicts whose entries keep insertion
      order. Floating-point numbers are not modelled. */
  datatype Json =
    | JNull
    | JBool(b: bool)
    | JInt(i: int)
    | JStr(s: string)
    | JList(items: seq<Json>)
    | JDict(fields: seq<(string, Json)>)

  // ---------------------------------------------------------------------------------------
  // Python dicts as insertion-ordered sequences of entries
  // ---------------------------------------------------------------------------------------

  function Keys<V>(d: seq<(string, V)>): set<string> {
    set i | 0 <= i < |d| :: d[i].0
  }

  predicate DistinctKeys<V>(d: seq<(string, V)>) {
    forall i, j :: 0 <= i < j < |d| ==> d[i].0 != d[j].0
  }

  /** Position of the first entry with key `k`, or `|d|`. */
  function IndexOfKey<V>(d: seq<(string, V)>, k: string): (i: nat)
    ensures i <= |d|
    ensures i < |d| ==> d[i].0 == k
    ensures forall j :: 0 <= j < i ==> d[j].0 != k
  {
    if d == [] then 0 else if d[0].0 == k then 0 else 1 + IndexOfKey(d[1..], k)
  }

  /** `d[k]`, or None when `k` is absent. */
  function Get<V>(d: seq<(string, V)>, k: string): Option<V> {
    var i := IndexOfKey(d, k);
    if i < |d| then Some(d[i].1) else None
  }

  /** `d[k] = v`: an existing key keeps its place and takes the new value; a new key goes last. */
  function Insert<V>(d: seq<(string, V)>, k: string, v: V): seq<(string, V)> {
    var i := IndexOfKey(d, k);
    if i < |d| then d[i := (k, v)] else d + [(k, v)]
  }

  /** A dict built by inserting the pairs of `ps` in order, as a dict comprehension does. */
  function FromPairs<V>(ps: seq<(string, V)>): seq<(string, V)> {
    if ps == [] then [] else Insert(FromPairs(ps[..|ps| - 1]), ps[|ps| - 1].0, ps[|ps| - 1].1)
  }

  /** Index of the last pair whose key lies in `ks`, or -1. */
  function LastIndex<V>(ps: seq<(string, V)>, ks: set<string>): (j: int)
    ensures -1 <= j < |ps|
    ensures j >= 0 ==> ps[j].0 in ks
    ensures forall i :: j < i < |ps| ==> ps[i].0 !in ks
  {
    if ps == [] then -1
    else if ps[|ps| - 1].0 in ks then |ps| - 1
    else LastIndex(ps[..|ps| - 1], ks)
  }

  lemma IndexOfKeyIs<V>(d: seq<(string, V)>, k: string, i: nat)
    requires i <= |d| && (i < |d| ==> d[i].0 == k)
    requires forall j :: 0 <= j < i ==> d[j].0 != k
    ensures IndexOfKey(d, k) == i
  {
  }

  lemma KeysIndex<V>(d: seq<(string, V)>, k: string)
    ensures k in Keys(d) <==> IndexOfKey(d, k) < |d|
  {
    if k in Keys(d) {
      var m :| 0 <= m < |d| && d[m].0 == k;
    }
    var i := IndexOfKey(d, k);
    if i < |d| {
      assert d[i].0 in Keys(d);
    }
  }

  lemma InsertFacts<V>(d: seq<(string, V)>, k: string, v: V)
    ensures Keys(Insert(d, k, v)) == Keys(d) + {k}
    ensures DistinctKeys(d) ==> DistinctKeys(Insert(d, k, v))
    ensures |Insert(d, k, v)| == if k in Keys(d) then |d| else |d| + 1
    ensures forall m :: 0 <= m < |Insert(d, k, v)| ==> Insert(d, k, v)[m] in d || Insert(d, k, v)[m] == (k, v)
  {
    KeysIndex(d, k);
    var i := IndexOfKey(d, k);
    var r := Insert(d, k, v);
    if i < |d| {
      assert forall m :: 0 <= m < |d| ==> r[m].0 == d[m].0;
      forall x | x in Keys(r) ensures x in Keys(d) {
        var m :| 0 <= m < |r| && r[m].0 == x;
      }
      forall x | x in Keys(d) ensures x in Keys(r) {
        var m :| 0 <= m < |d| && d[m].0 == x;
      }
    } else {
      forall x | x in Keys(r) ensures x in Keys(d) + {k} {
        var m :| 0 <= m < |r| && r[m].0 == x;
        if m < |d| {
          assert d[m].0 in Keys(d);
        }
      }
      forall x | x in Keys(d) + {k} ensures x in Keys(r) {
        if x == k {
          assert r[|d|].0 in Keys(r);
        } else {
          var m :| 0 <= m < |d| && d[m].0 == x;
          assert r[m].0 in Keys(r);
        }
      }
    }
  }

  lemma InsertGet<V>(d: seq<(string, V)>, k: string, v: V, k': string)
    ensures Get(Insert(d, k, v), k') == if k' == k then Some(v) else Get(d, k')
  {
    var i := IndexOfKey(d, k);
    var r := Insert(d, k, v);
    var i' := IndexOfKey(d, k');
    if k' == k {
      IndexOfKeyIs(r, k, i);
    } else if i' < |d| {
      IndexOfKeyIs(r, k', i');
    } else {
      IndexOfKeyIs(r, k', |r|);
    }
  }

  /** The dict built from `ps` has the keys of `ps`, each once, and no entry that is not one of
      the pairs. */
  lemma {:induction false} FromPairsKeys<V>(ps: seq<(string, V)>)
    ensures Keys(FromPairs(ps)) == Keys(ps)
    ensures DistinctKeys(FromPairs(ps))
    ensures forall m :: 0 <= m < |FromPairs(ps)| ==> FromPairs(ps)[m] in ps
    decreases |ps|
  {
    if ps != [] {
      var front := ps[..|ps| - 1];
      var last := ps[|ps| - 1];
      FromPairsKeys(front);
      InsertFacts(FromPairs(front), last.0, last.1);
      PyStr.LastSplit(ps);
      KeysSnoc(front, last);
    }
  }

  lemma KeysSnoc<V>(ps: seq<(string, V)>, e: (string, V))
    ensures Keys(ps + [e]) == Keys(ps) + {e.0}
  {
    var q := ps + [e];
    forall x | x in Keys(q) ensures x in Keys(ps) + {e.0} {
      var m :| 0 <= m < |q| && q[m].0 == x;
      if m < |ps| {
        assert ps[m].0 in Keys(ps);
      }
    }
    forall x | x in Keys(ps) + {e.0} ensures x in Keys(q) {
      if x == e.0 {
        assert q[|ps|].0 in Keys(q);
      } else {
        var m :| 0 <= m < |ps| && ps[m].0 == x;
        assert q[m].0 in Keys(q);
      }
    }
  }

  /** Looking a key up in the dict built from `ps` gives the value of the LAST pair with that
      key: a repeated key is overwritten by the later pair. */
  lemma {:induction false} FromPairsGet<V>(ps: seq<(string, V)>, k: string)
    ensures var j := LastIndex(ps, {k});
            Get(FromPairs(ps), k) == if j < 0 then None else Some(ps[j].1)
    decreases |ps|
  {
    if ps != [] {
      var front := ps[..|ps| - 1];
      FromPairsGet(front, k);
      InsertGet(FromPairs(front), ps[|ps| - 1].0, ps[|ps| - 1].1, k);
    }
  }

  /** Pairs whose keys are already distinct make a dict that holds them unchanged, in order. */
  lemma {:induction false} FromPairsDistinct<V>(ps: seq<(string, V)>)
    requires DistinctKeys(ps)
    ensures FromPairs(ps) == ps
    decreases |ps|
  {
    if ps != [] {
      var front := ps[..|ps| - 1];
      var last := ps[|ps| - 1];
      FromPairsDistinct(front);
      assert forall m :: 0 <= m < |front| ==> front[m].0 != last.0;
      KeysIndex(front, last.0);
      PyStr.LastSplit(ps);
    }
  }

  // ---------------------------------------------------------------------------------------
  // fix_keys
  // ---------------------------------------------------------------------------------------

  function Rename(k: string): string {
    if k == "from" then "from_" else k
  }

  /** The keys that `Rename` sends to `k`. */
  function Preimage(k: string): set<string> {
    if k == "from_" then {"from", "from_"} else if k == "from" then {} else {k}
  }

  /** `fix_keys`: a dict is rebuilt by a comprehension over its entries with each key renamed
      and each value rewritten, a list is rewritten element by element, anything else is
      returned as is. */
  function FixKeys(j: Json): Json
    decreases j
  {
    match j
    case JList(items) =>
      JList(seq(|items|, i requires 0 <= i < |items| => FixKeys(items[i])))
    case JDict(fields) =>
      JDict(FromPairs(seq(|fields|, i requires 0 <= i < |fields| =>
        (Rename(fields[i].0), FixKeys(fields[i].1)))))
    case _ => j
  }

  /** A document in the shape `fix_keys` produces: no key `from` at any depth, and the keys of
      every dict distinct. */
  predicate Fixed(j: Json)
    decreases j
  {
    match j
    case JList(items) => forall i :: 0 <= i < |items| ==> Fixed(items[i])
    case JDict(fields) =>
      DistinctKeys(fields) && forall i :: 0 <= i < |fields| ==> fields[i].0 != "from" && Fixed(fields[i].1)
    case _ => true
  }

  /** The output of `fix_keys` has no key `from` at any depth (and distinct keys everywhere). */
  lemma {:induction false} FixKeysFixed(j: Json)
    ensures Fixed(FixKeys(j))
    decreases j
  {
    match j
    case JList(items) =>
      forall i | 0 <= i < |items| ensures Fixed(FixKeys(items[i])) {
        FixKeysFixed(items[i]);
      }
    case JDict(fields) =>
      var ps := seq(|fields|, i requires 0 <= i < |fields| => (Rename(fields[i].0), FixKeys(fields[i].1)));
      var r := FromPairs(ps);
      FromPairsKeys(ps);
      forall i | 0 <= i < |r| ensures r[i].0 != "from" && Fixed(r[i].1) {
        assert r[i] in ps;
        var m :| 0 <= m < |ps| && ps[m] == r[i];
        FixKeysFixed(fields[m].1);
      }
    case _ =>
  }

  /** `fix_keys` changes nothing in a document already in its output shape. */
  lemma {:induction false} FixedUnchanged(j: Json)
    requires Fixed(j)
    ensures FixKeys(j) == j
    decreases j
  {
    match j
    case JList(items) =>
      forall i | 0 <= i < |items| ensures FixKeys(items[i]) == items[i] {
        FixedUnchanged(items[i]);
      }
      assert FixKeys(j).items == items;
    case JDict(fields) =>
      var ps := seq(|fields|, i requires 0 <= i < |fields| => (Rename(fields[i].0), FixKeys(fields[i].1)));
      forall i | 0 <= i < |fields| ensures ps[i] == fields[i] {
        FixedUnchanged(fields[i].1);
      }
      assert ps == fields;
      FromPairsDistinct(fields);
    case _ =>
  }

  /** `fix_keys(fix_keys(x)) == fix_keys(x)`. */
  lemma FixKeysIdempotent(j: Json)
    ensures FixKeys(FixKeys(j)) == FixKeys(j)
  {
    FixKeysFixed(j);
    FixedUnchanged(FixKeys(j));
  }

  /** Scalars come back unchanged, and a list keeps its length and order, each element
      rewritten in place. */
  lemma FixKeysShape(j: Json)
    ensures !j.JList? && !j.JDict? ==> FixKeys(j) == j
    ensures j.JList? ==> (FixKeys(j).JList? && |FixKeys(j).items| == |j.items|
      && forall i :: 0 <= i < |j.items| ==> FixKeys(j).items[i] == FixKeys(j.items[i]))
    ensures j.JDict? ==> FixKeys(j).JDict?
  {
  }

  /** A dict's keys after `fix_keys` are its keys with `from` renamed to `from_`. */
  lemma FixKeysKeys(fields: seq<(string, Json)>)
    ensures Keys(FixKeys(JDict(fields)).fields) == set x | x in Keys(fields) :: Rename(x)
  {
    var ps := seq(|fields|, i requires 0 <= i < |fields| => (Rename(fields[i].0), FixKeys(fields[i].1)));
    FromPairsKeys(ps);
    RenamedKeys(fields, ps);
  }

  lemma RenamedKeys<V, W>(fs: seq<(string, V)>, ps: seq<(string, W)>)
    requires |fs| == |ps|
    requires forall i :: 0 <= i < |fs| ==> ps[i].0 == Rename(fs[i].0)
    ensures Keys(ps) == set x | x in Keys(fs) :: Rename(x)
  {
    forall x | x in Keys(ps) ensures x in set y | y in Keys(fs) :: Rename(y) {
      var m :| 0 <= m < |ps| && ps[m].0 == x;
      assert fs[m].0 in Keys(fs);
    }
    forall y | y in Keys(fs) ensures Rename(y) in Keys(ps) {
      var m :| 0 <= m < |fs| && fs[m].0 == y;
      assert ps[m].0 in Keys(ps);
    }
  }

  /** Under each key of a dict after `fix_keys` lies the rewritten value of the LAST entry
      renamed to that key: when both `from` and `from_` are present, whichever comes later
      wins. */
  lemma FixKeysGet(fields: seq<(string, Json)>, k: string)
    ensures var j := LastIndex(fields, Preimage(k));
            Get(FixKeys(JDict(fields)).fields, k) == if j < 0 then None else Some(FixKeys(fields[j].1))
  {
    var ps := seq(|fields|, i requires 0 <= i < |fields| => (Rename(fields[i].0), FixKeys(fields[i].1)));
    FromPairsGet(ps, k);
    SameLastIndex(fields, ps, Preimage(k), {k});
  }

  /** Two pair sequences that agree on which positions match give the same last match. */
  lemma SameLastIndex<V, W>(ps: seq<(string, V)>, qs: seq<(string, W)>, ks: set<string>, ls: set<string>)
    requires |ps| == |qs|
    requires forall i :: 0 <= i < |ps| ==> (ps[i].0 in ks <==> qs[i].0 in ls)
    ensures LastIndex(ps, ks) == LastIndex(qs, ls)
  {
  }

  /** True when the dict holds both `from` and `from_`, the one case where two entries merge. */
  predicate Collides(fields: seq<(string, Json)>) {
    "from" in Keys(fields) && "from_" in Keys(fields)
  }

  /** On a dict with distinct keys and not both `from` and `from_`, `fix_keys` keeps every entry
      in its place, renaming `from` and rewriting the values. */
  lemma FixKeysNoCollision(fields: seq<(string, Json)>)
    requires DistinctKeys(fields) && !Collides(fields)
    ensures |FixKeys(JDict(fields)).fields| == |fields|
    ensures forall i :: 0 <= i < |fields| ==>
      FixKeys(JDict(fields)).fields[i] == (Rename(fields[i].0), FixKeys(fields[i].1))
  {
    var ps := seq(|fields|, i requires 0 <= i < |fields| => (Rename(fields[i].0), FixKeys(fields[i].1)));
    forall i, j | 0 <= i < j < |ps| ensures ps[i].0 != ps[j].0 {
      assert fields[i].0 in Keys(fields) && fields[j].0 in Keys(fields);
    }
    FromPairsDistinct(ps);
  }

  /** Number of distinct keys met along `ps`. */
  function KeyCount<V>(ps: seq<(string, V)>): nat {
    if ps == [] then 0
    else KeyCount(ps[..|ps| - 1]) + (if ps[|ps| - 1].0 in Keys(ps[..|ps| - 1]) then 0 else 1)
  }

  lemma {:induction false} FromPairsSize<V>(ps: seq<(string, V)>)
    ensures |FromPairs(ps)| == KeyCount(ps)
    decreases |ps|
  {
    if ps != [] {
      var front := ps[..|ps| - 1];
      FromPairsSize(front);
      FromPairsKeys(front);
      InsertFacts(FromPairs(front), ps[|ps| - 1].0, ps[|ps| - 1].1);
    }
  }

  lemma ImageSnoc<V>(a: seq<(string, V)>, x: (string, V))
    ensures (set z | z in Keys(a + [x]) :: Rename(z)) == (set z | z in Keys(a) :: Rename(z)) + {Rename(x.0)}
  {
    KeysSnoc(a, x);
  }

  lemma KeyCountSnoc<V>(b: seq<(string, V)>, y: (string, V))
    ensures KeyCount(b + [y]) == KeyCount(b) + if y.0 in Keys(b) then 0 else 1
  {
    assert (b + [y])[..|b|] == b;
  }

  lemma RenamedCountStep<V, W>(a: seq<(string, V)>, b: seq<(string, W)>, x: (string, V), y: (string, W))
    requires |a| == |b| && y.0 == Rename(x.0) && x.0 !in Keys(a)
    requires Keys(b) == set z | z in Keys(a) :: Rename(z)
    requires KeyCount(b) == |a| - (if "from" in Keys(a) && "from_" in Keys(a) then 1 else 0)
    ensures KeyCount(b + [y]) == |a| + 1 - (if "from" in Keys(a + [x]) && "from_" in Keys(a + [x]) then 1 else 0)
  {
    KeysSnoc(a, x);
    KeyCountSnoc(b, y);
    if y.0 in Keys(b) {
      var z :| z in Keys(a) && Rename(z) == y.0;
      assert z != x.0;
    }
  }

  /** Renaming keys merges at most the pair `from`/`from_`. */
  lemma {:induction false} RenamedCount<V, W>(fs: seq<(string, V)>, ps: seq<(string, W)>)
    requires |fs| == |ps| && DistinctKeys(fs)
    requires forall i :: 0 <= i < |fs| ==> ps[i].0 == Rename(fs[i].0)
    ensures Keys(ps) == set x | x in Keys(fs) :: Rename(x)
    ensures KeyCount(ps) == |fs| - (if "from" in Keys(fs) && "from_" in Keys(fs) then 1 else 0)
    decreases |fs|
  {
    if fs != [] {
      var n := |fs|;
      var a := fs[..n - 1];
      var b := ps[..n - 1];
      RenamedCount(a, b);
      PyStr.LastSplit(fs);
      PyStr.LastSplit(ps);
      assert forall m :: 0 <= m < |a| ==> a[m].0 != fs[n - 1].0;
      ImageSnoc(a, fs[n - 1]);
      KeysSnoc(b, ps[n - 1]);
      RenamedCountStep(a, b, fs[n - 1], ps[n - 1]);
    }
  }

  /** A dict with distinct keys keeps its size under `fix_keys`, except that holding both
      `from` and `from_` loses one entry. */
  lemma FixKeysSize(fields: seq<(string, Json)>)
    requires DistinctKeys(fields)
    ensures |FixKeys(JDict(fields)).fields| == if Collides(fields) then |fields| - 1 else |fields|
  {
    var ps := seq(|fields|, i requires 0 <= i < |fields| => (Rename(fields[i].0), FixKeys(fields[i].1)));
    FromPairsSize(ps);
    RenamedCount(fields, ps);
  }

  // ---------------------------------------------------------------------------------------
  // get_message_type over the webhook payload
  // ---------------------------------------------------------------------------------------

  /** The parts of a WhatsApp webhook payload the service reads. */
  datatype Message = Message(from_: string, id: string, timestamp: string, msgType: string, textBody: Option<string>)
  datatype Status = Status(id: string, status: string)
  datatype Value = Value(messages: Option<seq<Message>>, statuses: Option<seq<Status>>)
  datatype Change = Change(value: Value, field: string)
  datatype Entry = Entry(id: string, changes: seq<Change>)
  datatype Webhook = Webhook(kind: string, entry: seq<Entry>)

  /** `if change.value.messages:` — present and non-empty. */
  predicate HasMessages(c: Change) {
    c.value.messages.Some? && |c.value.messages.value| > 0
  }

  function FirstTypeInChanges(cs: seq<Change>): Option<string> {
    if cs == [] then None
    else if HasMessages(cs[0]) then Some(cs[0].value.messages.value[0].msgType)
    else FirstTypeInChanges(cs[1..])
  }

  function FirstTypeInEntries(es: seq<Entry>): Option<string> {
    if es == [] then None
    else if FirstTypeInChanges(es[0].changes).Some? then FirstTypeInChanges(es[0].changes)
    else FirstTypeInEntries(es[1..])
  }

  /** The type of the first message of the first change, in entry-then-change order, that
      carries messages. */
  function MessageType(w: Webhook): Option<string> {
    FirstTypeInEntries(w.entry)
  }

  /** `get_message_type`: two nested loops that return as soon as a change has messages. */
  method GetMessageType(w: Webhook) returns (r: Option<string>)
    ensures r == MessageType(w)
  {
    var i := 0;
    while i < |w.entry|
      invariant 0 <= i <= |w.entry|
      invariant FirstTypeInEntries(w.entry) == FirstTypeInEntries(w.entry[i..])
    {
      var cs := w.entry[i].changes;
      var j := 0;
      while j < |cs|
        invariant 0 <= j <= |cs|
        invariant FirstTypeInChanges(cs) == FirstTypeInChanges(cs[j..])
      {
        if HasMessages(cs[j]) {
          assert w.entry[i..][0] == w.entry[i];
          return Some(cs[j].value.messages.value[0].msgType);
        }
        assert cs[j..][1..] == cs[j + 1..];
        j := j + 1;
      }
      assert w.entry[i..][1..] == w.entry[i + 1..];
      i := i + 1;
    }
    return None;
  }

  /** Whether the change at (entry `e`, change `c`) has messages. */
  predicate HasMessagesAt(w: Webhook, e: int, c: int) {
    0 <= e < |w.entry| && 0 <= c < |w.entry[e].changes| && HasMessages(w.entry[e].changes[c])
  }

  /** `(e', c')` comes before `(e, c)` in entry-then-change order. */
  predicate Before(e': int, c': int, e: int, c: int) {
    e' < e || (e' == e && c' < c)
  }

  lemma {:induction false} FirstInChangesSpec(cs: seq<Change>)
    ensures FirstTypeInChanges(cs).None? <==> forall c :: 0 <= c < |cs| ==> !HasMessages(cs[c])
    ensures FirstTypeInChanges(cs).Some? ==>
      exists c :: (0 <= c < |cs| && HasMessages(cs[c])
        && FirstTypeInChanges(cs) == Some(cs[c].value.messages.value[0].msgType)
        && forall c' :: 0 <= c' < c ==> !HasMessages(cs[c']))
  {
    if cs != [] && !HasMessages(cs[0]) {
      FirstInChangesSpec(cs[1..]);
      if FirstTypeInChanges(cs).Some? {
        var c :| 0 <= c < |cs[1..]| && HasMessages(cs[1..][c])
          && FirstTypeInChanges(cs[1..]) == Some(cs[1..][c].value.messages.value[0].msgType)
          && forall c' :: 0 <= c' < c ==> !HasMessages(cs[1..][c']);
        assert HasMessages(cs[c + 1]);
      } else {
        forall c | 0 <= c < |cs| ensures !HasMessages(cs[c]) {
          if c > 0 {
            assert cs[c] == cs[1..][c - 1];
          }
        }
      }
    } else if cs != [] {
      assert HasMessages(cs[0]);
    }
  }

  lemma {:induction false} FirstInEntriesSpec(w: Webhook, n: nat)
    requires n <= |w.entry|
    ensures FirstTypeInEntries(w.entry[n..]).None? <==>
      forall e, c :: n <= e && HasMessagesAt(w, e, c) ==> false
    ensures FirstTypeInEntries(w.entry[n..]).Some? ==>
      exists e, c :: (n <= e && HasMessagesAt(w, e, c)
        && FirstTypeInEntries(w.entry[n..]) == Some(w.entry[e].changes[c].value.messages.value[0].msgType)
        && forall e', c' :: n <= e' && Before(e', c', e, c) && HasMessagesAt(w, e', c') ==> false)
    decreases |w.entry| - n
  {
    var es := w.entry[n..];
    if n < |w.entry| {
      assert es[0] == w.entry[n] && es[1..] == w.entry[n + 1..];
      FirstInChangesSpec(w.entry[n].changes);
      if FirstTypeInChanges(w.entry[n].changes).Some? {
        var c :| 0 <= c < |w.entry[n].changes| && HasMessages(w.entry[n].changes[c])
          && FirstTypeInChanges(w.entry[n].changes) == Some(w.entry[n].changes[c].value.messages.value[0].msgType)
          && forall c' :: 0 <= c' < c ==> !HasMessages(w.entry[n].changes[c']);
        assert HasMessagesAt(w, n, c);
      } else {
        FirstInEntriesSpec(w, n + 1);
        forall e, c | n <= e && HasMessagesAt(w, e, c) && e == n ensures false {
        }
      }
    }
  }

  /** `get_message_type` answers None exactly when no change of any entry has messages, and
      otherwise the type of the first message of the first change that has messages; `statuses`
      play no part. */
  lemma MessageTypeSpec(w: Webhook)
    ensures MessageType(w).None? <==> forall e, c :: HasMessagesAt(w, e, c) ==> false
    ensures MessageType(w).Some? ==>
      exists e, c :: (HasMessagesAt(w, e, c)
        && MessageType(w) == Some(w.entry[e].changes[c].value.messages.value[0].msgType)
        && forall e', c' :: Before(e', c', e, c) && HasMessagesAt(w, e', c') ==> false)
  {
    assert w.entry[0..] == w.entry;
    FirstInEntriesSpec(w, 0);
  }
}
