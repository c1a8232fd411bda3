/** Metadata lookup: GetMetadata and AddMetadata of coordinator.cc. A lookup
    goes up the ancestors of a device and then, through the composite of the
    topmost one, into the devices its fragments are bound to. */
module Metadata {
  import opened Common
  import opened Composites
  import opened CompositeRuns

  type Byte = bv8

  datatype Entry = Entry(kind: nat, data: seq<Byte>)

  /** The metadata list of each device, most recently added first. */
  type Store = map<DevId, seq<Entry>>

  datatype Reply = Found(entry: Entry) | TooSmall | NotFound

  function ListOf(md: Store, d: DevId): seq<Entry> {
    if d in md then md[d] else []
  }

  function AddMetadata(md: Store, d: DevId, e: Entry): Store {
    md[d := [e] + ListOf(md, d)]
  }

  function FirstOfKind(list: seq<Entry>, kind: nat): (r: Option<Entry>)
    ensures r.None? <==> forall e :: e in list ==> e.kind != kind
    ensures r.Some? ==> r.value in list && r.value.kind == kind
  {
    if list == [] then None
    else if list[0].kind == kind then Some(list[0])
    else FirstOfKind(list[1..], kind)
  }

  /** It is the one with nothing of its kind before it. */
  lemma {:induction false} FirstIsFirst(list: seq<Entry>, kind: nat, j: nat)
    requires j < |list| && list[j].kind == kind && forall i :: 0 <= i < j ==> list[i].kind != kind
    ensures FirstOfKind(list, kind) == Some(list[j])
  {
    if j == 0 {
    } else {
      FirstIsFirst(list[1..], kind, j - 1);
    }
  }

  /** A device and its ancestors, nearest first. */
  ghost function Chain(st: State, d: DevId): (r: seq<DevId>)
    requires Inv(st) && d in st.devs
    ensures r != [] && r[0] == d
    ensures forall x :: x in r ==> x in st.devs && x <= d
    ensures st.devs[r[|r| - 1]].parent.None?
    decreases d
  {
    var p := st.devs[d].parent;
    assert TreeAt(st, d);
    if p.None? then [d] else [d] + Chain(st, p.value)
  }

  ghost function Top(st: State, d: DevId): DevId
    requires Inv(st) && d in st.devs
  {
    var c := Chain(st, d);
    c[|c| - 1]
  }

  /** The first entry of a kind along a list of devices. */
  function Along(md: Store, ds: seq<DevId>, kind: nat): Option<Entry> {
    if ds == [] then None
    else if FirstOfKind(ListOf(md, ds[0]), kind).Some? then FirstOfKind(ListOf(md, ds[0]), kind)
    else Along(md, ds[1..], kind)
  }

  /** The entry found without entering a composite. */
  ghost function Own(st: State, md: Store, d: DevId, kind: nat): Option<Entry>
    requires Inv(st) && d in st.devs
  {
    Along(md, Chain(st, d), kind)
  }

  /** `room` is None when only the size is asked for. */
  predicate Fits(e: Entry, room: Option<nat>) {
    room.Some? ==> |e.data| <= room.value
  }

  /** The lookup as the source makes it. */
  ghost function Get(st: State, md: Store, d: DevId, kind: nat, room: Option<nat>): Reply
    requires Inv(st) && d in st.devs
    decreases d, 1, 0
  {
    var own := Own(st, md, d, kind);
    var t := Top(st, d);
    if own.Some? then (if Fits(own.value, room) then Found(own.value) else TooSmall)
    else if st.devs[t].comp.None? then NotFound
    else Search(st, md, st.devs[t].comp.value, t, st.comps[st.devs[t].comp.value].bound, kind, room)
  }

  /** The fragments of an assembled composite in the order of its bound list. */
  ghost function Search(st: State, md: Store, c: CompId, t: DevId, list: seq<nat>, kind: nat, room: Option<nat>): Reply
    requires Inv(st) && c in st.comps && st.comps[c].device == Some(t)
    requires forall i :: i in list ==> i in st.comps[c].bound
    decreases t, 0, |list|
  {
    if list == [] then NotFound
    else
      var b := BoundTo(st, c, t, list[0]);
      var r := Get(st, md, b, kind, room);
      if r.Found? then r else Search(st, md, c, t, list[1..], kind, room)
  }

  /** The device behind a fragment of an assembled composite is older than the
      composite device, so lookups terminate. */
  ghost function BoundTo(st: State, c: CompId, t: DevId, i: nat): (b: DevId)
    requires Inv(st) && c in st.comps && st.comps[c].device == Some(t) && i in st.comps[c].bound
    ensures b in st.devs && b < t && FragId(c, i) in st.frags && st.frags[FragId(c, i)].bound == Some(b)
  {
    assert ListsAt(st, c);
    st.frags[FragId(c, i)].bound.value
  }

  // ----- an independent account of what a lookup can reach

  /** Every entry a lookup may reach, in order: one for a device that has an
      own entry, else those of the fragments of its composite. */
  ghost function Candidates(st: State, md: Store, d: DevId, kind: nat): seq<Entry>
    requires Inv(st) && d in st.devs
    decreases d, 1, 0
  {
    var own := Own(st, md, d, kind);
    var t := Top(st, d);
    if own.Some? then [own.value]
    else if st.devs[t].comp.None? then []
    else InFragments(st, md, st.devs[t].comp.value, t, st.comps[st.devs[t].comp.value].bound, kind)
  }

  ghost function InFragments(st: State, md: Store, c: CompId, t: DevId, list: seq<nat>, kind: nat): seq<Entry>
    requires Inv(st) && c in st.comps && st.comps[c].device == Some(t)
    requires forall i :: i in list ==> i in st.comps[c].bound
    decreases t, 0, |list|
  {
    if list == [] then []
    else Candidates(st, md, BoundTo(st, c, t, list[0]), kind) + InFragments(st, md, c, t, list[1..], kind)
  }

  function FirstFit(es: seq<Entry>, room: Option<nat>): (r: Option<Entry>)
    ensures r.None? <==> forall e :: e in es ==> !Fits(e, room)
    ensures r.Some? ==> r.value in es && Fits(r.value, room)
  {
    if es == [] then None else if Fits(es[0], room) then Some(es[0]) else FirstFit(es[1..], room)
  }

  lemma {:induction false} FirstFitAppend(xs: seq<Entry>, ys: seq<Entry>, room: Option<nat>)
    ensures FirstFit(xs + ys, room) == if FirstFit(xs, room).Some? then FirstFit(xs, room) else FirstFit(ys, room)
  {
    if xs == [] {
      assert xs + ys == ys;
    } else {
      assert (xs + ys)[0] == xs[0] && (xs + ys)[1..] == xs[1..] + ys;
      FirstFitAppend(xs[1..], ys, room);
    }
  }

  ghost function Answer(own: Option<Entry>, fit: Option<Entry>): Reply {
    if fit.Some? then Found(fit.value) else if own.Some? then TooSmall else NotFound
  }

  /** A lookup finds the first reachable entry that fits. An own entry that
      does not fit is reported; one behind a fragment is passed over. */
  lemma {:induction false} GetFirstFit(st: State, md: Store, d: DevId, kind: nat, room: Option<nat>)
    requires Inv(st) && d in st.devs
    ensures Get(st, md, d, kind, room) == Answer(Own(st, md, d, kind), FirstFit(Candidates(st, md, d, kind), room))
    decreases d, 1, 0
  {
    hide Inv, Chain, Along;
    var own := Own(st, md, d, kind);
    var t := Top(st, d);
    if own.Some? {
      assert [own.value][0] == own.value && [own.value][1..] == [];
    } else if st.devs[t].comp.Some? {
      TopComposite(st, t);
      var c := st.devs[t].comp.value;
      SearchFirstFit(st, md, c, t, st.comps[c].bound, kind, room);
    }
  }

  lemma TopComposite(st: State, t: DevId)
    requires Inv(st) && t in st.devs && st.devs[t].comp.Some?
    ensures st.devs[t].comp.value in st.comps && st.comps[st.devs[t].comp.value].device == Some(t)
  {
  }

  lemma {:induction false} SearchFirstFit(st: State, md: Store, c: CompId, t: DevId, list: seq<nat>, kind: nat,
                                          room: Option<nat>)
    requires Inv(st) && c in st.comps && st.comps[c].device == Some(t)
    requires forall i :: i in list ==> i in st.comps[c].bound
    ensures Search(st, md, c, t, list, kind, room) ==
              Answer(None, FirstFit(InFragments(st, md, c, t, list, kind), room))
    decreases t, 0, |list|
  {
    hide Inv, Get, Candidates, BoundTo;
    if list == [] {
    } else {
      var b := BoundTo(st, c, t, list[0]);
      GetFirstFit(st, md, b, kind, room);
      SearchFirstFit(st, md, c, t, list[1..], kind, room);
      FirstFitAppend(Candidates(st, md, b, kind), InFragments(st, md, c, t, list[1..], kind), room);
    }
  }

  /** Asking for the size and then reading: every buffer of at least that size
      gets exactly the entry whose size was reported. */
  lemma SizeThenRead(st: State, md: Store, d: DevId, kind: nat, size: Reply, room: nat)
    requires Inv(st) && d in st.devs
    requires size == Get(st, md, d, kind, None)
    ensures size != TooSmall
    ensures size.Found? && |size.entry.data| <= room ==> Get(st, md, d, kind, Some(room)) == size
    ensures size.NotFound? ==> Get(st, md, d, kind, Some(room)).NotFound?
  {
    hide Inv, Get, Own, Candidates;
    var cs := Candidates(st, md, d, kind);
    GetFirstFit(st, md, d, kind, None);
    GetFirstFit(st, md, d, kind, Some(room));
    OwnIsCandidate(st, md, d, kind);
    assert cs != [] ==> cs[0] in cs && FirstFit(cs, None) == Some(cs[0]);
  }

  lemma OwnIsCandidate(st: State, md: Store, d: DevId, kind: nat)
    requires Inv(st) && d in st.devs
    ensures Own(st, md, d, kind).Some? ==> Candidates(st, md, d, kind) == [Own(st, md, d, kind).value]
  {
  }

  /** A read into a smaller buffer is refused for certain only when the device
      or an ancestor holds the entry; otherwise a later fragment's smaller
      entry may be returned, and is exactly when there is one. */
  lemma SmallBufferRead(st: State, md: Store, d: DevId, kind: nat, room: nat)
    requires Inv(st) && d in st.devs
    ensures Get(st, md, d, kind, Some(room)).Found? <==>
              exists e :: e in Candidates(st, md, d, kind) && |e.data| <= room
    ensures Get(st, md, d, kind, Some(room)).TooSmall? <==>
              Own(st, md, d, kind).Some? && |Own(st, md, d, kind).value.data| > room
  {
    hide Inv, Get, Own, Candidates;
    GetFirstFit(st, md, d, kind, Some(room));
    OwnIsCandidate(st, md, d, kind);
    var cs := Candidates(st, md, d, kind);
    var r := FirstFit(cs, Some(room));
    assert forall e :: e in cs ==> (Fits(e, Some(room)) <==> |e.data| <= room);
  }

  // ----- nearest device, most recent entry

  lemma {:induction false} AlongNearest(md: Store, ds: seq<DevId>, kind: nat, k: nat)
    requires k < |ds| && FirstOfKind(ListOf(md, ds[k]), kind).Some?
    requires forall i :: 0 <= i < k ==> FirstOfKind(ListOf(md, ds[i]), kind).None?
    ensures Along(md, ds, kind) == FirstOfKind(ListOf(md, ds[k]), kind)
  {
    if k == 0 {
    } else {
      assert FirstOfKind(ListOf(md, ds[0]), kind).None?;
      AlongNearest(md, ds[1..], kind, k - 1);
    }
  }

  /** The nearest device of the ancestor chain that has an entry decides, by
      its most recently added one: that is found if it fits the buffer, and
      otherwise the call is refused. */
  lemma NearestNewest(st: State, md: Store, d: DevId, kind: nat, k: nat, j: nat, room: Option<nat>)
    requires Inv(st) && d in st.devs && k < |Chain(st, d)|
    requires forall i :: 0 <= i < k ==> forall e :: e in ListOf(md, Chain(st, d)[i]) ==> e.kind != kind
    requires j < |ListOf(md, Chain(st, d)[k])| && ListOf(md, Chain(st, d)[k])[j].kind == kind
    requires forall i :: 0 <= i < j ==> ListOf(md, Chain(st, d)[k])[i].kind != kind
    ensures var e := ListOf(md, Chain(st, d)[k])[j];
            Get(st, md, d, kind, room) == if Fits(e, room) then Found(e) else TooSmall
  {
    hide Inv, Chain, Top;
    var ds := Chain(st, d);
    var list := ListOf(md, ds[k]);
    FirstIsFirst(list, kind, j);
    AlongNearest(md, ds, kind, k);
  }

  /** A new entry is what its device gets from then on. */
  lemma AddThenGet(st: State, md: Store, d: DevId, e: Entry)
    requires Inv(st) && d in st.devs
    ensures Get(st, AddMetadata(md, d, e), d, e.kind, None) == Found(e)
  {
  }

  /** Entries of another kind do not change a lookup. */
  lemma {:induction false} AddOtherKind(st: State, md: Store, x: DevId, e: Entry, d: DevId, kind: nat,
                                        room: Option<nat>)
    requires Inv(st) && d in st.devs && e.kind != kind
    ensures Get(st, AddMetadata(md, x, e), d, kind, room) == Get(st, md, d, kind, room)
    decreases d, 1, 0
  {
    hide Inv, Chain, Along, AddMetadata;
    var t := Top(st, d);
    AlongOtherKind(md, x, e, Chain(st, d), kind);
    if Own(st, md, d, kind).None? && st.devs[t].comp.Some? {
      TopComposite(st, t);
      var c := st.devs[t].comp.value;
      SearchOtherKind(st, md, x, e, c, t, st.comps[c].bound, kind, room);
    }
  }

  lemma {:induction false} SearchOtherKind(st: State, md: Store, x: DevId, e: Entry, c: CompId, t: DevId,
                                           list: seq<nat>, kind: nat, room: Option<nat>)
    requires Inv(st) && c in st.comps && st.comps[c].device == Some(t) && e.kind != kind
    requires forall i :: i in list ==> i in st.comps[c].bound
    ensures Search(st, AddMetadata(md, x, e), c, t, list, kind, room) == Search(st, md, c, t, list, kind, room)
    decreases t, 0, |list|
  {
    hide Inv, Get, BoundTo, AddMetadata;
    if list == [] {
    } else {
      AddOtherKind(st, md, x, e, BoundTo(st, c, t, list[0]), kind, room);
      SearchOtherKind(st, md, x, e, c, t, list[1..], kind, room);
    }
  }

  lemma {:induction false} AlongOtherKind(md: Store, x: DevId, e: Entry, ds: seq<DevId>, kind: nat)
    requires e.kind != kind
    ensures Along(AddMetadata(md, x, e), ds, kind) == Along(md, ds, kind)
  {
    if ds == [] {
    } else {
      var list := ListOf(md, ds[0]);
      assert ([e] + list)[1..] == list;
      AlongOtherKind(md, x, e, ds[1..], kind);
    }
  }

  // ----- in place

  method FindKind(list: seq<Entry>, kind: nat) returns (r: Option<Entry>)
    ensures r == FirstOfKind(list, kind)
  {
    var i := 0;
    while i < |list|
      invariant i <= |list| && FirstOfKind(list[i..], kind) == FirstOfKind(list, kind)
    {
      assert list[i..][0] == list[i] && list[i..][1..] == list[i + 1..];
      if list[i].kind == kind {
        return Some(list[i]);
      }
      i := i + 1;
    }
    return None;
  }

  /** A buffer of the caller after an answer was written to it. */
  ghost predicate Written(reply: Reply, before: seq<Byte>, after: seq<Byte>) {
    if reply.Found? then |reply.entry.data| <= |before| && after == reply.entry.data + before[|reply.entry.data|..]
    else after == before
  }

  ghost function Room(buffer: array?<Byte>): Option<nat> {
    if buffer == null then None else Some(buffer.Length)
  }

  /** Go up the ancestors of `dev` until one has an entry or the top is reached. */
  method FindOwn(st: State, md: Store, dev: DevId, kind: nat) returns (r: Option<Entry>, test: DevId)
    requires Inv(st) && dev in st.devs
    ensures r == Own(st, md, dev, kind) && test in st.devs && (r.None? ==> test == Top(st, dev))
  {
    hide Inv, Chain, Along, Own, Top, FirstOfKind;
    test := dev;
    while true
      invariant test in st.devs && Own(st, md, test, kind) == Own(st, md, dev, kind) && Top(st, test) == Top(st, dev)
      decreases test
    {
      OwnStep(st, md, test, kind);
      r := FindKind(ListOf(md, test), kind);
      if r.Some? || st.devs[test].parent.None? { return; }
      test := st.devs[test].parent.value;
    }
  }

  /** One step up. */
  lemma OwnStep(st: State, md: Store, d: DevId, kind: nat)
    requires Inv(st) && d in st.devs
    ensures var here, p := FirstOfKind(ListOf(md, d), kind), st.devs[d].parent;
            if p.None? then Own(st, md, d, kind) == here && Top(st, d) == d
            else
              && p.value in st.devs && p.value < d && Top(st, d) == Top(st, p.value)
              && Own(st, md, d, kind) == if here.Some? then here else Own(st, md, p.value, kind)
  {
    hide Inv, Chain, FirstOfKind;
    ParentChain(st, d);
    var ds := Chain(st, d);
    assert Along(md, [], kind) == None;
    assert st.devs[d].parent.None? ==> ds[1..] == [];
    assert st.devs[d].parent.Some? ==> ds == [d] + ds[1..];
  }

  lemma ParentChain(st: State, d: DevId)
    requires Inv(st) && d in st.devs
    ensures var p := st.devs[d].parent;
            if p.None? then Chain(st, d) == [d]
            else p.value in st.devs && p.value < d && Chain(st, d)[1..] == Chain(st, p.value)
  {
  }

  /** GetMetadata: the loop over ancestors, the loop over fragments with its
      recursive calls, and the copy into the caller's buffer. */
  method GetMetadata(st: State, md: Store, dev: DevId, kind: nat, buffer: array?<Byte>) returns (reply: Reply)
    requires Inv(st) && dev in st.devs
    modifies if buffer != null then {buffer} else {}
    ensures reply == Get(st, md, dev, kind, Room(buffer))
    ensures buffer != null ==> Written(reply, old(buffer[..]), buffer[..])
    decreases dev
  {
    hide Inv, Chain, Along;
    var own, test := FindOwn(st, md, dev, kind);
    if own.Some? {
      if buffer == null { return Found(own.value); }
      if |own.value.data| > buffer.Length { return TooSmall; }
      forall i | 0 <= i < |own.value.data| { buffer[i] := own.value.data[i]; }
      assert buffer[..] == own.value.data + old(buffer[..])[|own.value.data|..];
      return Found(own.value);
    }
    var comp := st.devs[test].comp;
    if comp.None? { return NotFound; }
    TopComposite(st, test);
    var c, list := comp.value, st.comps[comp.value].bound;
    assert list[0..] == list;
    var i := 0;
    while i < |list|
      invariant i <= |list|
      invariant Search(st, md, c, test, list[i..], kind, Room(buffer)) ==
                  Search(st, md, c, test, list, kind, Room(buffer))
      invariant buffer != null ==> buffer[..] == old(buffer[..])
    {
      assert list[i..][0] == list[i] && list[i..][1..] == list[i + 1..];
      assert BoundTo(st, c, test, list[i]) in st.devs;
      var b := st.frags[FragId(c, list[i])].bound.value;
      reply := GetMetadata(st, md, b, kind, buffer);
      if reply.Found? { return; }
      i := i + 1;
    }
    return NotFound;
  }
}
