/**
  What the flattened block holds, place by place: every event stands for one place of the block, every place that holds
  something has its event, and the events come in the order of their places.
 */
module VisitorLaws {
  import opened Digits
  import opened PvtTypes
  import opened BlockVisitor
  import Layout

  // ----- Places

  // Numbers are positions: of an envelope, an action, a read-write set, a collection, and an element of its lists
  datatype Place =
    | BlockItself
    | Envelope(num: nat)              // an undecodable envelope, payload or transaction, or a configuration update
    | Action(num: nat, act: nat)      // an action that does not decode
    | Results(num: nat, act: nat)     // results that do not decode
    | SetRead(num: nat, act: nat, set_: nat, i: nat)
    | Lifecycle(num: nat, act: nat, set_: nat)
    | SetWrite(num: nat, act: nat, set_: nat, i: nat)
    | HashRead(num: nat, act: nat, set_: nat, coll: nat, i: nat)
    | HashWrite(num: nat, act: nat, set_: nat, coll: nat, i: nat)
    | CCEvent(num: nat, act: nat)
    | PvtSet(num: nat, ns: nat, coll: nat)    // private data that does not decode
    | PvtRead(num: nat, ns: nat, coll: nat, i: nat)
    | PvtWrite(num: nat, ns: nat, coll: nat, i: nat)

  // Places compare as these sequences do: actions before private data, reads before writes before hashes
  function Rank(p: Place): seq<nat> {
    match p
    case BlockItself => [0]
    case Envelope(n) => [1, n]
    case Action(n, a) => [1, n, 0, a]
    case Results(n, a) => [1, n, 0, a, 0]
    case SetRead(n, a, s, i) => [1, n, 0, a, 0, s, 0, i]
    case Lifecycle(n, a, s) => [1, n, 0, a, 0, s, 1]
    case SetWrite(n, a, s, i) => [1, n, 0, a, 0, s, 1, i]
    case HashRead(n, a, s, c, i) => [1, n, 0, a, 0, s, 2, c, 0, i]
    case HashWrite(n, a, s, c, i) => [1, n, 0, a, 0, s, 2, c, 1, i]
    case CCEvent(n, a) => [1, n, 0, a, 1]
    case PvtSet(n, s, c) => [1, n, 1, s, c]
    case PvtRead(n, s, c, i) => [1, n, 1, s, c, 0, i]
    case PvtWrite(n, s, c, i) => [1, n, 1, s, c, 1, i]
  }

  // ----- What stands at a place

  // Envelope n, when it is a valid transaction that decodes
  function TxAt(b: Block, n: nat): Option<(TxId, Tx)> {
    if n < |b.envelopes| && n in b.valid then
      match b.envelopes[n]
      case Good(Good(Endorser(id, Good(t)))) => Some((TxId(n, id), t))
      case _ => None
    else None
  }

  // Its action a, when all of the action's messages decode
  function ActionAt(b: Block, n: nat, a: nat): Option<(TxId, CCAction)> {
    match TxAt(b, n)
    case Some((tx, t)) =>
      (if a < |t.actions| then
         match t.actions[a]
         case Good(ActionPayload(true, Good(Response(Good(action))))) => Some((tx, action))
         case _ => None
       else None)
    case None => None
  }

  function SetAt(b: Block, n: nat, a: nat, s: nat): Option<(TxId, NsRwSet)> {
    match ActionAt(b, n, a)
    case Some((tx, CCAction(Some(Good(sets)), _))) => if s < |sets| then Some((tx, sets[s])) else None
    case _ => None
  }

  // Collection c of the private data of namespace s, under the name it is handed out with
  function PvtAt(b: Block, n: nat, s: nat, c: nat): Option<(TxId, string, Dec<KvRwSet>)> {
    if TxAt(b, n).Some? && n in b.pvt && s < |b.pvt[n]| && c < |b.pvt[n][s].colls| then
      Some((TxAt(b, n).value.0, b.pvt[n][s].ns + "$$p" + b.pvt[n][s].colls[c].coll, b.pvt[n][s].colls[c].rwset))
    else None
  }

  predicate IsCorrupt(tx: TxId, e: Event) {
    e == Corrupt(Some(tx.num), Some(tx.id))
  }

  // The last write whose key holds the separator, or the last whose key does not
  predicate LastWith(ws: seq<Write>, i: nat, config: bool) {
    i < |ws| && ('~' in ws[i].key) == config && forall j :: i < j < |ws| ==> ('~' in ws[j].key) != config
  }

  predicate NoneWith(ws: seq<Write>, config: bool) {
    forall j :: 0 <= j < |ws| ==> ('~' in ws[j].key) != config
  }

  predicate AllDecode(ws: seq<Write>) {
    forall j :: 0 <= j < |ws| ==> if '~' in ws[j].key then ws[j].asConfig.Good? else ws[j].asChaincode.Good?
  }

  // The identifier and data are those of the last chaincode write, the configuration is the last one written
  predicate Describes(ws: seq<Write>, id: string, data: Option<Bytes>, config: Option<Bytes>) {
    && AllDecode(ws)
    && (if NoneWith(ws, false) then id == "" && data == None
        else exists i :: 0 <= i < |ws| && LastWith(ws, i, false) && ws[i].asChaincode.Good? &&
                         id == ws[i].key && data == Some(ws[i].asChaincode.value))
    && (if NoneWith(ws, true) then config == None
        else exists i :: 0 <= i < |ws| && LastWith(ws, i, true) && ws[i].asConfig.Good? &&
                         config == Some(ws[i].asConfig.value))
  }

  predicate LifecycleGives(tx: TxId, ws: seq<Write>, e: Event) {
    if ws == [] then false
    else if AllDecode(ws) then
      e.OfLscc? && e.tx == tx && Describes(ws, e.ccId, e.ccData, e.config)
    else IsCorrupt(tx, e)
  }

  predicate EnvelopeGives(b: Block, n: nat, e: Event)
    requires n < |b.envelopes|
  {
    match b.envelopes[n]
    case Bad => e == Corrupt(None, None)
    case Good(Bad) => e == Corrupt(Some(n), None)
    case Good(Good(Endorser(id, Bad))) => n in b.valid && e == Corrupt(Some(n), Some(id))
    case Good(Good(ConfigUpdate(Good(Bad)))) => e == Corrupt(None, None)
    case Good(Good(ConfigUpdate(Good(Good(update))))) => e == OfConfig(update)
    case _ => false
  }

  predicate SetGives(p: Place, tx: TxId, s: NsRwSet, e: Event) {
    match p
    case SetRead(_, _, _, i) => i < |s.readSet| && e == OfRead(tx, s.ns, s.readSet[i])
    case Lifecycle(_, _, _) => s.ns == "lscc" && LifecycleGives(tx, s.writeSet, e)
    case SetWrite(_, _, _, i) => s.ns != "lscc" && i < |s.writeSet| && e == OfWrite(tx, s.ns, s.writeSet[i])
    case HashRead(_, _, _, c, i) =>
      s.ns != "lscc" && c < |s.colls| && i < |s.colls[c].readSet| &&
      e == OfHashRead(tx, s.ns, s.colls[c].coll, s.colls[c].readSet[i])
    case HashWrite(_, _, _, c, i) =>
      s.ns != "lscc" && c < |s.colls| && i < |s.colls[c].writeSet| &&
      e == OfHashWrite(tx, s.ns, s.colls[c].coll, s.colls[c].writeSet[i])
    case _ => false
  }

  predicate PvtGives(p: Place, tx: TxId, ns: string, kv: Dec<KvRwSet>, e: Event) {
    match p
    case PvtSet(_, _, _) => kv.Bad? && IsCorrupt(tx, e)
    case PvtRead(_, _, _, i) => kv.Good? && i < |kv.value.readSet| && e == OfRead(tx, ns, kv.value.readSet[i])
    case PvtWrite(_, _, _, i) => kv.Good? && i < |kv.value.writeSet| && e == OfWrite(tx, ns, kv.value.writeSet[i])
    case _ => false
  }

  predicate ActionGives(p: Place, tx: TxId, action: CCAction, e: Event) {
    match p
    case Results(_, _) => action.results == Some(Bad) && IsCorrupt(tx, e)
    case CCEvent(_, _) =>
      && action.event.Some?
      && if action.event.value.Bad? then IsCorrupt(tx, e) else e == OfCCEvent(tx, action.event.value.value)
    case _ => false
  }

  // The place of the block holds this event
  predicate Gives(b: Block, p: Place, e: Event) {
    match p
    case BlockItself => e == OfBlock(b.number)
    case Envelope(n) => n < |b.envelopes| && EnvelopeGives(b, n, e)
    case Action(n, a) =>
      && TxAt(b, n).Some? && a < |TxAt(b, n).value.1.actions| && ActionAt(b, n, a).None?
      && IsCorrupt(TxAt(b, n).value.0, e)
    case Results(n, a) => ActionHolds(b, n, a, p, e)
    case CCEvent(n, a) => ActionHolds(b, n, a, p, e)
    case PvtSet(n, s, c) => PvtHolds(b, n, s, c, p, e)
    case PvtRead(n, s, c, _) => PvtHolds(b, n, s, c, p, e)
    case PvtWrite(n, s, c, _) => PvtHolds(b, n, s, c, p, e)
    case _ => SetAt(b, p.num, p.act, p.set_).Some? &&
              SetGives(p, SetAt(b, p.num, p.act, p.set_).value.0, SetAt(b, p.num, p.act, p.set_).value.1, e)
  }

  predicate ActionHolds(b: Block, n: nat, a: nat, p: Place, e: Event) {
    match ActionAt(b, n, a)
    case Some((tx, action)) => ActionGives(p, tx, action, e)
    case None => false
  }

  predicate PvtHolds(b: Block, n: nat, s: nat, c: nat, p: Place, e: Event) {
    match PvtAt(b, n, s, c)
    case Some((tx, ns, kv)) => PvtGives(p, tx, ns, kv, e)
    case None => false
  }

  // ----- The events below a prefix of ranks

  const RANK: Place -> seq<nat> := (p: Place) => Rank(p)

  function In(b: Block): (Place, Event) -> bool {
    (p: Place, e: Event) => Gives(b, p, e)
  }

  predicate InBranch(prefix: seq<nat>, n: nat, p: Place) {
    Layout.InBranch(prefix, n, Rank(p))
  }

  // es are all events of the block below the prefix, in order
  ghost predicate Laid(b: Block, prefix: seq<nat>, es: seq<Event>) {
    Layout.Laid(RANK, In(b), prefix, es)
  }

  ghost predicate LaidUpTo(b: Block, prefix: seq<nat>, n: nat, es: seq<Event>) {
    Layout.LaidUpTo(RANK, In(b), prefix, n, es)
  }

  lemma NothingLaid(b: Block, prefix: seq<nat>)
    requires forall p, e :: Gives(b, p, e) ==> !(prefix <= Rank(p))
    ensures Laid(b, prefix, [])
  {
    Layout.NothingLaid(RANK, In(b), prefix);
  }

  lemma OneLaid(b: Block, prefix: seq<nat>, p: Place, e: Event)
    requires Gives(b, p, e) && prefix <= Rank(p)
    requires forall p', e' :: Gives(b, p', e') && prefix <= Rank(p') ==> p' == p && e' == e
    ensures Laid(b, prefix, [e])
  {
    Layout.OneLaid(RANK, In(b), prefix, p, e);
  }

  lemma AllBranches(b: Block, prefix: seq<nat>, n: nat, es: seq<Event>)
    requires LaidUpTo(b, prefix, n, es)
    requires forall p, e :: Gives(b, p, e) && prefix <= Rank(p) ==> InBranch(prefix, n, p)
    ensures Laid(b, prefix, es)
  {
    Layout.AllBranches(RANK, In(b), prefix, n, es);
  }

  lemma NextBranch(b: Block, prefix: seq<nat>, n: nat, es: seq<Event>, more: seq<Event>)
    requires LaidUpTo(b, prefix, n, es) && Laid(b, prefix + [n], more)
    ensures LaidUpTo(b, prefix, n + 1, es + more)
  {
    Layout.NextBranch(RANK, In(b), prefix, n, es, more);
  }

  lemma TwoLaid(b: Block, prefix: seq<nat>, x: seq<Event>, y: seq<Event>)
    requires Laid(b, prefix + [0], x) && Laid(b, prefix + [1], y)
    ensures LaidUpTo(b, prefix, 2, x + y)
  {
    Layout.TwoLaid(RANK, In(b), prefix, x, y);
  }

  lemma EachLaid<T>(b: Block, prefix: seq<nat>, xs: seq<T>, f: T -> seq<Event>)
    requires forall i :: 0 <= i < |xs| ==> Laid(b, prefix + [i], f(xs[i]))
    ensures LaidUpTo(b, prefix, |xs|, FlatMap(xs, f))
  {
    Layout.EachLaid(RANK, In(b), prefix, xs, f);
  }

  // The elements of a list, one event each, below the prefix
  ghost predicate IsLeaf<T>(b: Block, prefix: seq<nat>, xs: seq<T>, f: T -> seq<Event>, at: nat -> Place, i: nat)
    requires i < |xs|
  {
    |f(xs[i])| == 1 && Rank(at(i)) == prefix + [i] && Gives(b, at(i), f(xs[i])[0])
  }

  lemma LeavesLaid<T>(b: Block, prefix: seq<nat>, xs: seq<T>, f: T -> seq<Event>, at: nat -> Place)
    requires forall i :: 0 <= i < |xs| ==> IsLeaf(b, prefix, xs, f, at, i)
    requires forall p, e :: Gives(b, p, e) && prefix <= Rank(p) ==> Layout.FromLeaf(xs, f, at, p, e)
    ensures Laid(b, prefix, FlatMap(xs, f))
  {
    forall i | 0 <= i < |xs| ensures Layout.IsLeaf(RANK, In(b), prefix, xs, f, at, i) {
      assert IsLeaf(b, prefix, xs, f, at, i);
    }
    Layout.LeavesLaid(RANK, In(b), prefix, xs, f, at);
  }

  // ----- One read-write set

  lemma BelowSet(p: Place, n: nat, a: nat, s: nat)
    requires [1, n, 0, a, 0, s] <= Rank(p)
    ensures p.SetRead? || p.Lifecycle? || p.SetWrite? || p.HashRead? || p.HashWrite?
    ensures p.num == n && p.act == a && p.set_ == s
  {
    var r := Rank(p);
    assert r[0] == 1 && r[1] == n && r[2] == 0 && r[3] == a && r[4] == 0 && r[5] == s;
  }

  // A place in branch k of a set
  lemma InSet(p: Place, n: nat, a: nat, s: nat, k: nat)
    requires [1, n, 0, a, 0, s] + [k] <= Rank(p)
    ensures if k == 0 then p.SetRead? else if k == 1 then p.Lifecycle? || p.SetWrite?
            else k == 2 && (p.HashRead? || p.HashWrite?)
    ensures p.num == n && p.act == a && p.set_ == s
  {
    Layout.BranchIff([1, n, 0, a, 0, s], k, Rank(p));
    BelowSet(p, n, a, s);
  }

  lemma ReadsLaid(b: Block, n: nat, a: nat, s: nat, tx: TxId, set_: NsRwSet)
    requires SetAt(b, n, a, s) == Some((tx, set_))
    ensures Laid(b, [1, n, 0, a, 0, s] + [0], FlatMap(set_.readSet, EachRead(tx, set_.ns)))
  {
    var prefix, at := [1, n, 0, a, 0, s] + [0], (i: nat) => SetRead(n, a, s, i);
    forall p, e | Gives(b, p, e) && prefix <= Rank(p)
      ensures Layout.FromLeaf(set_.readSet, EachRead(tx, set_.ns), at, p, e)
    {
      InSet(p, n, a, s, 0);
      assert p == at(p.i);
    }
    LeavesLaid(b, prefix, set_.readSet, EachRead(tx, set_.ns), at);
  }

  lemma WritesLaid(b: Block, n: nat, a: nat, s: nat, tx: TxId, set_: NsRwSet)
    requires SetAt(b, n, a, s) == Some((tx, set_)) && set_.ns != "lscc"
    ensures Laid(b, [1, n, 0, a, 0, s] + [1], FlatMap(set_.writeSet, EachWrite(tx, set_.ns)))
  {
    var prefix, at := [1, n, 0, a, 0, s] + [1], (i: nat) => SetWrite(n, a, s, i);
    forall p, e | Gives(b, p, e) && prefix <= Rank(p)
      ensures Layout.FromLeaf(set_.writeSet, EachWrite(tx, set_.ns), at, p, e)
    {
      InSet(p, n, a, s, 1);
      assert p == at(p.i);
    }
    LeavesLaid(b, prefix, set_.writeSet, EachWrite(tx, set_.ns), at);
  }

  // A place in branch k of a collection of a set
  lemma InColl(p: Place, n: nat, a: nat, s: nat, c: nat, k: nat)
    requires [1, n, 0, a, 0, s] + [2] + [c] + [k] <= Rank(p)
    ensures p.num == n && p.act == a && p.set_ == s && (p.HashRead? || p.HashWrite?) && p.coll == c
    ensures if k == 0 then p.HashRead? else k == 1 && p.HashWrite?
  {
    Layout.BranchIff([1, n, 0, a, 0, s] + [2] + [c], k, Rank(p));
    Layout.BranchIff([1, n, 0, a, 0, s] + [2], c, Rank(p));
    InSet(p, n, a, s, 2);
  }

  lemma HashReadsLaid(b: Block, n: nat, a: nat, s: nat, tx: TxId, set_: NsRwSet, c: nat)
    requires SetAt(b, n, a, s) == Some((tx, set_)) && set_.ns != "lscc" && c < |set_.colls|
    ensures Laid(b, [1, n, 0, a, 0, s] + [2] + [c] + [0],
                 FlatMap(set_.colls[c].readSet, EachHashRead(tx, set_.ns, set_.colls[c].coll)))
  {
    var prefix, at := [1, n, 0, a, 0, s] + [2] + [c] + [0], (i: nat) => HashRead(n, a, s, c, i);
    var xs, f := set_.colls[c].readSet, EachHashRead(tx, set_.ns, set_.colls[c].coll);
    forall p, e | Gives(b, p, e) && prefix <= Rank(p) ensures Layout.FromLeaf(xs, f, at, p, e) {
      InColl(p, n, a, s, c, 0);
      assert p == at(p.i);
    }
    LeavesLaid(b, prefix, xs, f, at);
  }

  lemma HashWritesLaid(b: Block, n: nat, a: nat, s: nat, tx: TxId, set_: NsRwSet, c: nat)
    requires SetAt(b, n, a, s) == Some((tx, set_)) && set_.ns != "lscc" && c < |set_.colls|
    ensures Laid(b, [1, n, 0, a, 0, s] + [2] + [c] + [1],
                 FlatMap(set_.colls[c].writeSet, EachHashWrite(tx, set_.ns, set_.colls[c].coll)))
  {
    var prefix, at := [1, n, 0, a, 0, s] + [2] + [c] + [1], (i: nat) => HashWrite(n, a, s, c, i);
    var xs, f := set_.colls[c].writeSet, EachHashWrite(tx, set_.ns, set_.colls[c].coll);
    forall p, e | Gives(b, p, e) && prefix <= Rank(p) ensures Layout.FromLeaf(xs, f, at, p, e) {
      InColl(p, n, a, s, c, 1);
      assert p == at(p.i);
    }
    LeavesLaid(b, prefix, xs, f, at);
  }

  lemma CollLaid(b: Block, n: nat, a: nat, s: nat, tx: TxId, set_: NsRwSet, c: nat)
    requires SetAt(b, n, a, s) == Some((tx, set_)) && set_.ns != "lscc" && c < |set_.colls|
    ensures Laid(b, [1, n, 0, a, 0, s] + [2] + [c], OfCollHash(tx, set_.ns, set_.colls[c]))
  {
    var prefix := [1, n, 0, a, 0, s] + [2] + [c];
    HashReadsLaid(b, n, a, s, tx, set_, c);
    HashWritesLaid(b, n, a, s, tx, set_, c);
    TwoLaid(b, prefix, FlatMap(set_.colls[c].readSet, EachHashRead(tx, set_.ns, set_.colls[c].coll)),
        FlatMap(set_.colls[c].writeSet, EachHashWrite(tx, set_.ns, set_.colls[c].coll)));
    forall p, e | Gives(b, p, e) && prefix <= Rank(p) ensures InBranch(prefix, 2, p) {
      UnderColl(p, n, a, s, c);
    }
    AllBranches(b, prefix, 2, OfCollHash(tx, set_.ns, set_.colls[c]));
  }

  lemma UnderColl(p: Place, n: nat, a: nat, s: nat, c: nat)
    requires [1, n, 0, a, 0, s] + [2] + [c] <= Rank(p)
    ensures InBranch([1, n, 0, a, 0, s] + [2] + [c], 2, p)
  {
    Layout.BranchIff([1, n, 0, a, 0, s] + [2], c, Rank(p));
    InSet(p, n, a, s, 2);
  }

  lemma UnderColls(b: Block, n: nat, a: nat, s: nat, tx: TxId, set_: NsRwSet, p: Place, e: Event)
    requires SetAt(b, n, a, s) == Some((tx, set_)) && Gives(b, p, e) && [1, n, 0, a, 0, s] + [2] <= Rank(p)
    ensures set_.ns != "lscc" && InBranch([1, n, 0, a, 0, s] + [2], |set_.colls|, p)
  {
    InSet(p, n, a, s, 2);
  }

  lemma CollsLaid(b: Block, n: nat, a: nat, s: nat, tx: TxId, set_: NsRwSet)
    requires SetAt(b, n, a, s) == Some((tx, set_)) && set_.ns != "lscc"
    ensures Laid(b, [1, n, 0, a, 0, s] + [2], FlatMap(set_.colls, EachColl(tx, set_.ns)))
  {
    var prefix := [1, n, 0, a, 0, s] + [2];
    forall c | 0 <= c < |set_.colls| ensures Laid(b, prefix + [c], EachColl(tx, set_.ns)(set_.colls[c])) {
      CollLaid(b, n, a, s, tx, set_, c);
    }
    EachLaid(b, prefix, set_.colls, EachColl(tx, set_.ns));
    forall p, e | Gives(b, p, e) && prefix <= Rank(p) ensures InBranch(prefix, |set_.colls|, p) {
      UnderColls(b, n, a, s, tx, set_, p, e);
    }
    AllBranches(b, prefix, |set_.colls|, FlatMap(set_.colls, EachColl(tx, set_.ns)));
  }

  // ----- Lifecycle writes

  lemma {:induction false} InfoDescribes(ws: seq<Write>)
    ensures CCInfoOf(ws).None? <==> !AllDecode(ws)
    ensures var info := CCInfoOf(ws); info.Some? ==> Describes(ws, info.value.id, info.value.data, info.value.config)
  {
    if ws != [] {
      var last := |ws| - 1;
      InfoDescribes(ws[..last]);
      assert AllDecode(ws) <==> AllDecode(ws[..last]) && AllDecode([ws[last]]) by {
        assert forall j :: 0 <= j < last ==> ws[..last][j] == ws[j];
        assert [ws[last]][0] == ws[last];
      }
      if CCInfoOf(ws).Some? {
        OtherKindKept(ws, true);
        OtherKindKept(ws, false);
        assert LastWith(ws, last, '~' in ws[last].key);
      }
    }
  }

  // A last write of the other kind changes nothing about this kind
  lemma OtherKindKept(ws: seq<Write>, config: bool)
    requires ws != []
    ensures ('~' in ws[|ws| - 1].key) != config ==>
              && (NoneWith(ws, config) <==> NoneWith(ws[..|ws| - 1], config))
              && forall i :: 0 <= i < |ws| - 1 && LastWith(ws[..|ws| - 1], i, config) ==> LastWith(ws, i, config)
  {
  }

  lemma LastWithUnique(ws: seq<Write>, i: nat, j: nat, config: bool)
    requires LastWith(ws, i, config) && LastWith(ws, j, config)
    ensures i == j
  {
  }

  lemma DescribedOnce(ws: seq<Write>, info: CCInfo, id: string, data: Option<Bytes>, config: Option<Bytes>)
    requires Describes(ws, info.id, info.data, info.config) && Describes(ws, id, data, config)
    ensures info == CCInfo(id, data, config)
  {
    if !NoneWith(ws, false) {
      var i :| 0 <= i < |ws| && LastWith(ws, i, false) && ws[i].asChaincode.Good? && info.id == ws[i].key &&
          info.data == Some(ws[i].asChaincode.value);
      var j :| 0 <= j < |ws| && LastWith(ws, j, false) && ws[j].asChaincode.Good? && id == ws[j].key &&
          data == Some(ws[j].asChaincode.value);
      LastWithUnique(ws, i, j, false);
    }
    if !NoneWith(ws, true) {
      var i :| 0 <= i < |ws| && LastWith(ws, i, true) && ws[i].asConfig.Good? &&
          info.config == Some(ws[i].asConfig.value);
      var j :| 0 <= j < |ws| && LastWith(ws, j, true) && ws[j].asConfig.Good? && config == Some(ws[j].asConfig.value);
      LastWithUnique(ws, i, j, true);
    }
  }

  /** A lifecycle namespace gives nothing, one error or the one event that describes its last writes. */
  lemma LsccIff(tx: TxId, ws: seq<Write>, e: Event)
    ensures LifecycleGives(tx, ws, e) <==> Lscc(tx, ws) == [e]
    ensures |Lscc(tx, ws)| == if ws == [] then 0 else 1
  {
    InfoDescribes(ws);
    if LifecycleGives(tx, ws, e) && AllDecode(ws) {
      DescribedOnce(ws, CCInfoOf(ws).value, e.ccId, e.ccData, e.config);
    }
  }

  lemma UnderLifecycle(b: Block, n: nat, a: nat, s: nat, tx: TxId, set_: NsRwSet, p: Place, e: Event)
    requires SetAt(b, n, a, s) == Some((tx, set_)) && set_.ns == "lscc"
    requires Gives(b, p, e) && [1, n, 0, a, 0, s] + [1] <= Rank(p)
    ensures p == Lifecycle(n, a, s) && Lscc(tx, set_.writeSet) == [e]
  {
    InSet(p, n, a, s, 1);
    LsccIff(tx, set_.writeSet, e);
  }

  lemma LsccLaid(b: Block, n: nat, a: nat, s: nat, tx: TxId, set_: NsRwSet)
    requires SetAt(b, n, a, s) == Some((tx, set_)) && set_.ns == "lscc"
    ensures Laid(b, [1, n, 0, a, 0, s] + [1], Lscc(tx, set_.writeSet))
  {
    var prefix := [1, n, 0, a, 0, s] + [1];
    forall p, e | Gives(b, p, e) && prefix <= Rank(p)
      ensures p == Lifecycle(n, a, s) && Lscc(tx, set_.writeSet) == [e]
    {
      UnderLifecycle(b, n, a, s, tx, set_, p, e);
    }
    if set_.writeSet == [] {
      NothingLaid(b, prefix);
    } else {
      var p := Lifecycle(n, a, s);
      LsccIff(tx, set_.writeSet, OfBlock(0));
      var e := Lscc(tx, set_.writeSet)[0];
      LsccIff(tx, set_.writeSet, e);
      assert Rank(p) == prefix && Lscc(tx, set_.writeSet) == [e];
      OneLaid(b, prefix, p, e);
    }
  }

  lemma NoCollsLaid(b: Block, n: nat, a: nat, s: nat, tx: TxId, set_: NsRwSet)
    requires SetAt(b, n, a, s) == Some((tx, set_)) && set_.ns == "lscc"
    ensures Laid(b, [1, n, 0, a, 0, s] + [2], [])
  {
    forall p, e | Gives(b, p, e) ensures !([1, n, 0, a, 0, s] + [2] <= Rank(p)) {
      if [1, n, 0, a, 0, s] + [2] <= Rank(p) {
        UnderColls(b, n, a, s, tx, set_, p, e);
      }
    }
    NothingLaid(b, [1, n, 0, a, 0, s] + [2]);
  }

  lemma UnderSet(p: Place, n: nat, a: nat, s: nat)
    requires [1, n, 0, a, 0, s] <= Rank(p)
    ensures InBranch([1, n, 0, a, 0, s], 3, p)
  {
    BelowSet(p, n, a, s);
  }

  lemma ThreeLaid(b: Block, prefix: seq<nat>, x: seq<Event>, y: seq<Event>, z: seq<Event>)
    requires Laid(b, prefix + [0], x) && Laid(b, prefix + [1], y) && Laid(b, prefix + [2], z)
    requires forall p, e :: Gives(b, p, e) && prefix <= Rank(p) ==> InBranch(prefix, 3, p)
    ensures Laid(b, prefix, x + (y + z))
  {
    TwoLaid(b, prefix, x, y);
    NextBranch(b, prefix, 2, x + y, z);
    Regroup(x, y, z);
    AllBranches(b, prefix, 3, x + (y + z));
  }

  lemma Regroup<T>(x: seq<T>, y: seq<T>, z: seq<T>)
    ensures x + y + z == x + (y + z)
  {
  }

  lemma SetLaid(b: Block, n: nat, a: nat, s: nat, tx: TxId, set_: NsRwSet)
    requires SetAt(b, n, a, s) == Some((tx, set_))
    ensures Laid(b, [1, n, 0, a, 0, s], OfNs(tx, set_))
  {
    var prefix, first := [1, n, 0, a, 0, s], FlatMap(set_.readSet, EachRead(tx, set_.ns));
    forall p, e | Gives(b, p, e) && prefix <= Rank(p) ensures InBranch(prefix, 3, p) {
      UnderSet(p, n, a, s);
    }
    ReadsLaid(b, n, a, s, tx, set_);
    if set_.ns == "lscc" {
      LsccLaid(b, n, a, s, tx, set_);
      NoCollsLaid(b, n, a, s, tx, set_);
      ThreeLaid(b, prefix, first, Lscc(tx, set_.writeSet), []);
      assert Lscc(tx, set_.writeSet) + [] == Lscc(tx, set_.writeSet);
    } else {
      WritesLaid(b, n, a, s, tx, set_);
      CollsLaid(b, n, a, s, tx, set_);
      ThreeLaid(b, prefix, first, FlatMap(set_.writeSet, EachWrite(tx, set_.ns)),
          FlatMap(set_.colls, EachColl(tx, set_.ns)));
    }
  }

  // ----- One action

  lemma UnderResults(b: Block, n: nat, a: nat, tx: TxId, action: CCAction, p: Place, e: Event)
    requires ActionAt(b, n, a) == Some((tx, action)) && Gives(b, p, e) && [1, n, 0, a] + [0] <= Rank(p)
    ensures match action.results
            case None => false
            case Some(Bad) => p == Results(n, a) && e == CorruptTx(tx)
            case Some(Good(sets)) => InBranch([1, n, 0, a] + [0], |sets|, p)
  {
    var r := Rank(p);
    assert r[0] == 1 && r[1] == n && r[2] == 0 && r[3] == a && r[4] == 0;
  }

  lemma ResultsLaid(b: Block, n: nat, a: nat, tx: TxId, action: CCAction)
    requires ActionAt(b, n, a) == Some((tx, action))
    ensures Laid(b, [1, n, 0, a] + [0], OfResults(tx, action.results))
  {
    var prefix := [1, n, 0, a] + [0];
    match action.results
    case None =>
      forall p, e | Gives(b, p, e) ensures !(prefix <= Rank(p)) {
        if prefix <= Rank(p) {
          UnderResults(b, n, a, tx, action, p, e);
        }
      }
      NothingLaid(b, prefix);
    case Some(Bad) =>
      forall p, e | Gives(b, p, e) && prefix <= Rank(p) ensures p == Results(n, a) && e == CorruptTx(tx) {
        UnderResults(b, n, a, tx, action, p, e);
      }
      OneLaid(b, prefix, Results(n, a), CorruptTx(tx));
    case Some(Good(sets)) =>
      forall s | 0 <= s < |sets| ensures Laid(b, prefix + [s], EachNs(tx)(sets[s])) {
        SetLaid(b, n, a, s, tx, sets[s]);
        assert prefix + [s] == [1, n, 0, a, 0, s];
      }
      EachLaid(b, prefix, sets, EachNs(tx));
      forall p, e | Gives(b, p, e) && prefix <= Rank(p) ensures InBranch(prefix, |sets|, p) {
        UnderResults(b, n, a, tx, action, p, e);
      }
      AllBranches(b, prefix, |sets|, FlatMap(sets, EachNs(tx)));
  }

  lemma UnderEvent(b: Block, n: nat, a: nat, tx: TxId, action: CCAction, p: Place, e: Event)
    requires ActionAt(b, n, a) == Some((tx, action)) && Gives(b, p, e) && [1, n, 0, a] + [1] <= Rank(p)
    ensures p == CCEvent(n, a) && OfEvents(tx, action.event) == [e]
  {
    var r := Rank(p);
    assert r[0] == 1 && r[1] == n && r[2] == 0 && r[3] == a && r[4] == 1;
  }

  lemma EventLaid(b: Block, n: nat, a: nat, tx: TxId, action: CCAction)
    requires ActionAt(b, n, a) == Some((tx, action))
    ensures Laid(b, [1, n, 0, a] + [1], OfEvents(tx, action.event))
  {
    var prefix := [1, n, 0, a] + [1];
    forall p, e | Gives(b, p, e) && prefix <= Rank(p) ensures p == CCEvent(n, a) && OfEvents(tx, action.event) == [e] {
      UnderEvent(b, n, a, tx, action, p, e);
    }
    if action.event.None? {
      NothingLaid(b, prefix);
    } else {
      OneLaid(b, prefix, CCEvent(n, a), OfEvents(tx, action.event)[0]);
      assert OfEvents(tx, action.event) == [OfEvents(tx, action.event)[0]];
    }
  }

  lemma UnderAction(b: Block, n: nat, a: nat, p: Place, e: Event)
    requires TxAt(b, n).Some? && Gives(b, p, e) && [1, n, 0, a] <= Rank(p)
    ensures a < |TxAt(b, n).value.1.actions|
    ensures if ActionAt(b, n, a).Some? then InBranch([1, n, 0, a], 2, p)
            else p == Action(n, a) && e == CorruptTx(TxAt(b, n).value.0)
  {
    var r := Rank(p);
    assert r[0] == 1 && r[1] == n && r[2] == 0 && r[3] == a;
  }

  lemma ActionLaid(b: Block, n: nat, a: nat, tx: TxId, t: Tx)
    requires TxAt(b, n) == Some((tx, t)) && a < |t.actions|
    ensures Laid(b, [1, n, 0] + [a], OfAction(tx, t.actions[a]))
  {
    assert [1, n, 0] + [a] == [1, n, 0, a];
    if ActionAt(b, n, a).Some? {
      GoodActionLaid(b, n, a, tx, ActionAt(b, n, a).value.1);
    } else {
      BadActionLaid(b, n, a, tx, t);
    }
  }

  lemma GoodActionLaid(b: Block, n: nat, a: nat, tx: TxId, action: CCAction)
    requires ActionAt(b, n, a) == Some((tx, action))
    ensures Laid(b, [1, n, 0, a], OfResults(tx, action.results) + OfEvents(tx, action.event))
  {
    ResultsLaid(b, n, a, tx, action);
    EventLaid(b, n, a, tx, action);
    TwoLaid(b, [1, n, 0, a], OfResults(tx, action.results), OfEvents(tx, action.event));
    forall p, e | Gives(b, p, e) && [1, n, 0, a] <= Rank(p) ensures InBranch([1, n, 0, a], 2, p) {
      UnderAction(b, n, a, p, e);
    }
    AllBranches(b, [1, n, 0, a], 2, OfResults(tx, action.results) + OfEvents(tx, action.event));
  }

  lemma BadActionLaid(b: Block, n: nat, a: nat, tx: TxId, t: Tx)
    requires TxAt(b, n) == Some((tx, t)) && a < |t.actions| && ActionAt(b, n, a).None?
    ensures Laid(b, [1, n, 0, a], [CorruptTx(tx)])
  {
    forall p, e | Gives(b, p, e) && [1, n, 0, a] <= Rank(p) ensures p == Action(n, a) && e == CorruptTx(tx) {
      UnderAction(b, n, a, p, e);
    }
    OneLaid(b, [1, n, 0, a], Action(n, a), CorruptTx(tx));
  }

  lemma ActionsLaid(b: Block, n: nat, tx: TxId, t: Tx)
    requires TxAt(b, n) == Some((tx, t))
    ensures Laid(b, [1, n] + [0], FlatMap(t.actions, EachAction(tx)))
  {
    var prefix := [1, n] + [0];
    assert prefix == [1, n, 0];
    forall a | 0 <= a < |t.actions| ensures Laid(b, prefix + [a], EachAction(tx)(t.actions[a])) {
      ActionLaid(b, n, a, tx, t);
    }
    EachLaid(b, prefix, t.actions, EachAction(tx));
    forall p, e | Gives(b, p, e) && prefix <= Rank(p) ensures InBranch(prefix, |t.actions|, p) {
      UnderActions(b, n, p, e);
    }
    AllBranches(b, prefix, |t.actions|, FlatMap(t.actions, EachAction(tx)));
  }

  lemma UnderActions(b: Block, n: nat, p: Place, e: Event)
    requires TxAt(b, n).Some? && Gives(b, p, e) && [1, n] + [0] <= Rank(p)
    ensures InBranch([1, n] + [0], |TxAt(b, n).value.1.actions|, p)
  {
    var r := Rank(p);
    assert r[0] == 1 && r[1] == n && r[2] == 0;
    assert [1, n, 0, r[3]] <= r;
    UnderAction(b, n, r[3], p, e);
  }

  // ----- Private data

  lemma InPvt(p: Place, n: nat, s: nat, c: nat)
    requires [1, n, 1] + [s] + [c] <= Rank(p)
    ensures (p.PvtSet? || p.PvtRead? || p.PvtWrite?) && p.num == n && p.ns == s && p.coll == c
  {
    var r, prefix := Rank(p), [1, n, 1] + [s] + [c];
    assert r[0] == 1 && r[1] == n && r[2] == 1 && r[3] == prefix[3] == s && r[4] == prefix[4] == c;
  }

  lemma PvtReadsLaid(b: Block, n: nat, s: nat, c: nat, tx: TxId, ns: string, kv: KvRwSet)
    requires PvtAt(b, n, s, c) == Some((tx, ns, Good(kv)))
    ensures Laid(b, [1, n, 1] + [s] + [c] + [0], FlatMap(kv.readSet, EachRead(tx, ns)))
  {
    var prefix, at := [1, n, 1] + [s] + [c] + [0], (i: nat) => PvtRead(n, s, c, i);
    forall p, e | Gives(b, p, e) && prefix <= Rank(p) ensures Layout.FromLeaf(kv.readSet, EachRead(tx, ns), at, p, e) {
      Layout.BranchIff([1, n, 1] + [s] + [c], 0, Rank(p));
      InPvt(p, n, s, c);
      assert p == at(p.i);
    }
    LeavesLaid(b, prefix, kv.readSet, EachRead(tx, ns), at);
  }

  lemma PvtWritesLaid(b: Block, n: nat, s: nat, c: nat, tx: TxId, ns: string, kv: KvRwSet)
    requires PvtAt(b, n, s, c) == Some((tx, ns, Good(kv)))
    ensures Laid(b, [1, n, 1] + [s] + [c] + [1], FlatMap(kv.writeSet, EachWrite(tx, ns)))
  {
    var prefix, at := [1, n, 1] + [s] + [c] + [1], (i: nat) => PvtWrite(n, s, c, i);
    forall p, e | Gives(b, p, e) && prefix <= Rank(p)
      ensures Layout.FromLeaf(kv.writeSet, EachWrite(tx, ns), at, p, e)
    {
      Layout.BranchIff([1, n, 1] + [s] + [c], 1, Rank(p));
      InPvt(p, n, s, c);
      assert p == at(p.i);
    }
    LeavesLaid(b, prefix, kv.writeSet, EachWrite(tx, ns), at);
  }

  lemma UnderPvtColl(b: Block, n: nat, s: nat, c: nat, p: Place, e: Event)
    requires PvtAt(b, n, s, c).Some? && Gives(b, p, e) && [1, n, 1] + [s] + [c] <= Rank(p)
    ensures if PvtAt(b, n, s, c).value.2.Good? then InBranch([1, n, 1] + [s] + [c], 2, p)
            else p == PvtSet(n, s, c) && e == CorruptTx(PvtAt(b, n, s, c).value.0)
  {
    InPvt(p, n, s, c);
  }

  lemma PvtCollLaid(b: Block, n: nat, s: nat, c: nat, tx: TxId)
    requires PvtAt(b, n, s, c).Some? && PvtAt(b, n, s, c).value.0 == tx
    ensures Laid(b, [1, n, 1] + [s] + [c], OfPvtColl(tx, b.pvt[n][s].ns, b.pvt[n][s].colls[c]))
  {
    var prefix := [1, n, 1] + [s] + [c];
    var (_, ns, kv) := PvtAt(b, n, s, c).value;
    if kv.Good? {
      PvtReadsLaid(b, n, s, c, tx, ns, kv.value);
      PvtWritesLaid(b, n, s, c, tx, ns, kv.value);
      TwoLaid(b, prefix, FlatMap(kv.value.readSet, EachRead(tx, ns)), FlatMap(kv.value.writeSet, EachWrite(tx, ns)));
      forall p, e | Gives(b, p, e) && prefix <= Rank(p) ensures InBranch(prefix, 2, p) {
        UnderPvtColl(b, n, s, c, p, e);
      }
      AllBranches(b, prefix, 2, OfPvtColl(tx, b.pvt[n][s].ns, b.pvt[n][s].colls[c]));
    } else {
      forall p, e | Gives(b, p, e) && prefix <= Rank(p) ensures p == PvtSet(n, s, c) && e == CorruptTx(tx) {
        UnderPvtColl(b, n, s, c, p, e);
      }
      assert Rank(PvtSet(n, s, c)) == prefix;
      OneLaid(b, prefix, PvtSet(n, s, c), CorruptTx(tx));
    }
  }

  lemma UnderPvt(b: Block, n: nat, p: Place, e: Event)
    requires TxAt(b, n).Some? && Gives(b, p, e) && [1, n] + [1] <= Rank(p)
    ensures InBranch([1, n] + [1], |PvtOf(b, n)|, p)
    ensures var s := Rank(p)[3]; s < |b.pvt[n]| && InBranch([1, n, 1] + [s], |b.pvt[n][s].colls|, p)
  {
    var r := Rank(p);
    assert r[0] == 1 && r[1] == n && r[2] == 1;
    assert [1, n, 1] + [r[3]] + [r[4]] <= r;
    InPvt(p, n, r[3], r[4]);
  }

  lemma PvtNsLaid(b: Block, n: nat, s: nat, tx: TxId)
    requires TxAt(b, n).Some? && TxAt(b, n).value.0 == tx && n in b.pvt && s < |b.pvt[n]|
    ensures Laid(b, [1, n, 1] + [s], OfPvtNs(tx, b.pvt[n][s]))
  {
    var prefix, colls := [1, n, 1] + [s], b.pvt[n][s].colls;
    forall c | 0 <= c < |colls| ensures Laid(b, prefix + [c], EachPvtColl(tx, b.pvt[n][s].ns)(colls[c])) {
      PvtCollLaid(b, n, s, c, tx);
    }
    EachLaid(b, prefix, colls, EachPvtColl(tx, b.pvt[n][s].ns));
    forall p, e | Gives(b, p, e) && prefix <= Rank(p) ensures InBranch(prefix, |colls|, p) {
      Layout.BranchIff([1, n, 1], s, Rank(p));
      assert [1, n] + [1] == [1, n, 1];
      UnderPvt(b, n, p, e);
    }
    AllBranches(b, prefix, |colls|, FlatMap(colls, EachPvtColl(tx, b.pvt[n][s].ns)));
  }

  lemma PvtLaid(b: Block, n: nat, tx: TxId)
    requires TxAt(b, n).Some? && TxAt(b, n).value.0 == tx
    ensures Laid(b, [1, n] + [1], FlatMap(PvtOf(b, n), EachPvtNs(tx)))
  {
    var prefix := [1, n] + [1];
    assert prefix == [1, n, 1];
    forall s | 0 <= s < |PvtOf(b, n)| ensures Laid(b, prefix + [s], EachPvtNs(tx)(PvtOf(b, n)[s])) {
      PvtNsLaid(b, n, s, tx);
    }
    EachLaid(b, prefix, PvtOf(b, n), EachPvtNs(tx));
    forall p, e | Gives(b, p, e) && prefix <= Rank(p) ensures InBranch(prefix, |PvtOf(b, n)|, p) {
      UnderPvt(b, n, p, e);
    }
    AllBranches(b, prefix, |PvtOf(b, n)|, FlatMap(PvtOf(b, n), EachPvtNs(tx)));
  }

  // ----- The block

  lemma UnderEnvelope(b: Block, n: nat, p: Place, e: Event)
    requires Gives(b, p, e) && [1] + [n] <= Rank(p)
    ensures n < |b.envelopes|
    ensures if TxAt(b, n).Some? then InBranch([1, n], 2, p) else p == Envelope(n) && EnvelopeGives(b, n, e)
  {
    var r := Rank(p);
    assert r[0] == 1 && r[1] == ([1] + [n])[1] == n;
  }

  lemma TxLaid(b: Block, n: nat, tx: TxId, t: Tx)
    requires TxAt(b, n) == Some((tx, t))
    ensures Laid(b, [1, n], OfTx(tx, t, PvtOf(b, n)))
  {
    ActionsLaid(b, n, tx, t);
    PvtLaid(b, n, tx);
    TwoLaid(b, [1, n], FlatMap(t.actions, EachAction(tx)), FlatMap(PvtOf(b, n), EachPvtNs(tx)));
    forall p, e | Gives(b, p, e) && [1, n] <= Rank(p) ensures InBranch([1, n], 2, p) {
      assert [1] + [n] == [1, n];
      UnderEnvelope(b, n, p, e);
    }
    AllBranches(b, [1, n], 2, OfTx(tx, t, PvtOf(b, n)));
  }

  lemma EnvelopeLaid(b: Block, n: nat)
    requires n < |b.envelopes|
    ensures Laid(b, [1] + [n], OfEnvelope(b, n))
  {
    if TxAt(b, n).Some? {
      TxLaid(b, n, TxAt(b, n).value.0, TxAt(b, n).value.1);
      assert [1] + [n] == [1, n];
    } else {
      PlainEnvelopeLaid(b, n);
    }
  }

  lemma PlainEnvelopeLaid(b: Block, n: nat)
    requires n < |b.envelopes| && TxAt(b, n).None?
    ensures Laid(b, [1] + [n], OfEnvelope(b, n))
  {
    var prefix, es := [1] + [n], OfEnvelope(b, n);
    forall p, e | Gives(b, p, e) && prefix <= Rank(p) ensures p == Envelope(n) && es == [e] {
      UnderEnvelope(b, n, p, e);
    }
    assert Rank(Envelope(n)) == prefix;
    if es == [] {
      NothingLaid(b, prefix);
    } else {
      assert es == [es[0]] && EnvelopeGives(b, n, es[0]);
      OneLaid(b, prefix, Envelope(n), es[0]);
    }
  }

  lemma EnvelopesLaid(b: Block)
    ensures Laid(b, [] + [1], FlatMap(Indices(|b.envelopes|), EachEnvelope(b)))
  {
    var prefix, nums := [] + [1], Indices(|b.envelopes|);
    assert prefix == [1];
    forall i | 0 <= i < |nums| ensures Laid(b, prefix + [i], EachEnvelope(b)(nums[i])) {
      EnvelopeLaid(b, i);
    }
    EachLaid(b, prefix, nums, EachEnvelope(b));
    forall p, e | Gives(b, p, e) && prefix <= Rank(p) ensures InBranch(prefix, |nums|, p) {
      var r := Rank(p);
      assert r[0] == 1;
      assert [1] + [r[1]] <= r;
      UnderEnvelope(b, r[1], p, e);
    }
    AllBranches(b, prefix, |nums|, FlatMap(nums, EachEnvelope(b)));
  }

  /**
    The flattened block lists the places of the block that hold something: each once, with what it holds, in the order
    of their ranks.
   */
  lemma FlattenListsPlaces(b: Block) returns (ps: seq<Place>)
    ensures |ps| == |Flatten(b)|
    ensures forall i :: 0 <= i < |ps| ==> Gives(b, ps[i], Flatten(b)[i])
    ensures forall i, j :: 0 <= i < j < |ps| ==> Less(Rank(ps[i]), Rank(ps[j]))
    ensures forall p, e :: Gives(b, p, e) ==> exists i :: 0 <= i < |ps| && ps[i] == p && Flatten(b)[i] == e
  {
    var prefix: seq<nat> := [];
    forall p, e | Gives(b, p, e) && prefix + [0] <= Rank(p) ensures p == BlockItself && e == OfBlock(b.number) {
      assert Rank(p)[0] == (prefix + [0])[0] == 0;
    }
    OneLaid(b, prefix + [0], BlockItself, OfBlock(b.number));
    EnvelopesLaid(b);
    TwoLaid(b, prefix, [OfBlock(b.number)], FlatMap(Indices(|b.envelopes|), EachEnvelope(b)));
    AllBranches(b, prefix, 2, Flatten(b));
    ps := PlacesOf(b, Flatten(b));
  }

  lemma PlacesOf(b: Block, es: seq<Event>) returns (ps: seq<Place>)
    requires Laid(b, [], es)
    ensures |ps| == |es|
    ensures forall i :: 0 <= i < |ps| ==> Gives(b, ps[i], es[i])
    ensures forall i, j :: 0 <= i < j < |ps| ==> Less(Rank(ps[i]), Rank(ps[j]))
    ensures forall p, e :: Gives(b, p, e) ==> exists i :: 0 <= i < |ps| && ps[i] == p && es[i] == e
  {
    var qs :| Layout.Lays(RANK, In(b), [], qs, es);
    ps := qs;
    forall i, j | 0 <= i < j < |ps| ensures Less(Rank(ps[i]), Rank(ps[j])) {
      assert Less(RANK(ps[i]), RANK(ps[j]));
    }
    forall i | 0 <= i < |ps| ensures Gives(b, ps[i], es[i]) {
      assert In(b)(ps[i], es[i]);
    }
    forall p, e | Gives(b, p, e) ensures exists i :: 0 <= i < |ps| && ps[i] == p && es[i] == e {
      assert In(b)(p, e) && [] <= RANK(p);
      assert Layout.Listed(ps, es, p, e);
    }
  }

  /** An event is handed out exactly when some place of the block holds it. */
  lemma HandedOutIff(b: Block, e: Event)
    ensures e in Flatten(b) <==> exists p :: Gives(b, p, e)
  {
    var ps := FlattenListsPlaces(b);
    if e in Flatten(b) {
      var i :| 0 <= i < |Flatten(b)| && Flatten(b)[i] == e;
      assert Gives(b, ps[i], e);
    }
  }

  // The transaction an event is about
  function TxOf(e: Event): Option<TxId> {
    match e
    case OfBlock(_) => None
    case OfConfig(_) => None
    case Corrupt(_, _) => None
    case _ => Some(e.tx)
  }

  /** Only valid transactions that decode are handed out, under their own identifier. */
  lemma OnlyValidTxs(b: Block, e: Event)
    requires e in Flatten(b) && TxOf(e).Some?
    ensures var tx := TxOf(e).value;
            && tx.num in b.valid && tx.num < |b.envelopes|
            && exists t :: b.envelopes[tx.num] == Good(Good(Endorser(tx.id, Good(t))))
  {
    HandedOutIff(b, e);
    var p :| Gives(b, p, e);
    assert TxAt(b, p.num).Some? && TxAt(b, p.num).value.0 == TxOf(e).value;
    assert b.envelopes[p.num] == Good(Good(Endorser(TxOf(e).value.id, Good(TxAt(b, p.num).value.1))));
  }

  lemma LessFirst(x: seq<nat>, y: seq<nat>)
    requires |x| >= 2 && |y| >= 2 && x[0] == y[0] && Less(x, y)
    ensures x[1] <= y[1]
  {
    assert x[1..][0] == x[1] && y[1..][0] == y[1];
  }

  /** Transactions are handed out in the order of the block. */
  lemma TxsInOrder(b: Block, i: nat, j: nat)
    requires i < j < |Flatten(b)| && TxOf(Flatten(b)[i]).Some? && TxOf(Flatten(b)[j]).Some?
    ensures TxOf(Flatten(b)[i]).value.num <= TxOf(Flatten(b)[j]).value.num
  {
    var ps := FlattenListsPlaces(b);
    PlaceOfTx(b, ps[i], Flatten(b)[i]);
    PlaceOfTx(b, ps[j], Flatten(b)[j]);
    LessFirst(Rank(ps[i]), Rank(ps[j]));
  }

  lemma PlaceOfTx(b: Block, p: Place, e: Event)
    requires Gives(b, p, e) && TxOf(e).Some?
    ensures |Rank(p)| >= 2 && Rank(p)[0] == 1 && Rank(p)[1] == TxOf(e).value.num
  {
  }

  // ----- Where the walk stops

  /** When everything decodes and no handler fails, the whole block is handed out, whatever the error handler does. */
  lemma WholeWhenNothingFails(h: Handlers, start: seq<Event>, b: Block)
    requires forall t :: !h.fails(t)
    requires forall p, e :: Gives(b, p, e) ==> !e.Corrupt?
    ensures Handled(h, start, Flatten(b)) == Outcome(start + Flatten(b), false)
  {
    forall e | e in Flatten(b) ensures !e.Corrupt? {
      HandedOutIff(b, e);
    }
    AllHandled(h, start, Flatten(b));
  }

  lemma {:induction false} AllHandled(h: Handlers, start: seq<Event>, todo: seq<Event>)
    requires (forall t :: !h.fails(t)) && forall e :: e in todo ==> !e.Corrupt?
    ensures Handled(h, start, todo) == Outcome(start + todo, false)
  {
    if todo == [] {
      assert start + todo == start;
    } else {
      var last := |todo| - 1;
      AllHandled(h, start, todo[..last]);
      assert start + todo == start + todo[..last] + [todo[last]];
    }
  }

  // The i-th event does not decode or its handler fails
  predicate InError(h: Handlers, start: seq<Event>, todo: seq<Event>, i: nat)
    requires i < |todo|
  {
    todo[i].Corrupt? || h.fails(start + todo[..i + 1])
  }

  /** An error handler that lets nothing pass ends the walk right after the first event in error. */
  lemma StopsAtFirstError(h: Handlers, start: seq<Event>, todo: seq<Event>, i: nat)
    requires forall t :: h.errorFails(t)
    requires i < |todo| && InError(h, start, todo, i) && forall j :: 0 <= j < i ==> !InError(h, start, todo, j)
    ensures Handled(h, start, todo) == Outcome(start + todo[..i + 1], true)
  {
    var o := Handled(h, start, todo);
    HandledExactly(h, start, todo);
    forall n: nat | |start| < n <= |o.trace|
      ensures Halts(h, o.trace[..n]) <==> InError(h, start, todo, n - |start| - 1)
    {
      assert o.trace[..n] == start + todo[..n - |start|];
      assert (start + todo[..n - |start|])[n - 1] == todo[n - |start| - 1];
    }
    assert o.trace[..|o.trace|] == o.trace;
    forall k: nat | k < |o.trace| - |start| - 1 ensures !InError(h, start, todo, k) {
      assert !Halts(h, o.trace[..|start| + k + 1]);
    }
    assert o.trace == start + todo[..|o.trace| - |start|];
  }
}
