// The service manager's registry: a list of named services, each holding a strong reference
// to its handle, checked against the history of calls made to it.
module ServiceRegistry {
  import opened Base

  type Name = seq<Unit>
  /** A handle; 0 is none. */
  type Handle = nat

  const AID_SYSTEM := 1000
  const AID_USER := 100000
  const AID_ISOLATED_START := 99000
  const AID_ISOLATED_END := 99999

  datatype Entry = Entry(name: Name, ptr: Handle, isolated: bool)

  /** A service was added, or the death callback of the entry with that name came. */
  datatype Event = Added(name: Name, ptr: Handle, isolated: bool) | Died(name: Name)

  /** What the registry asks of the driver. */
  datatype Request = Acquire(h: Handle) | Release(h: Handle) | LinkToDeath(h: Handle, name: Name)

  /** The part of a name before its first NUL. */
  function Shown(s: Name): Name {
    if s == [] || s[0] == 0 then [] else [s[0]] + Shown(s[1..])
  }

  /** `allowed` lists who may register what, apart from root and the system. */
  ghost predicate CanRegister(allowed: seq<(nat, Name)>, uid: nat, name: Name) {
    uid == 0 || uid == AID_SYSTEM || exists n :: 0 <= n < |allowed| && allowed[n] == (uid, Shown(name))
  }

  // ---- The history --------------------------------------------------------------------------

  /** The handle last added under a name since its last death callback. */
  function Current(history: seq<Event>, name: Name): Handle {
    if history == [] then 0
    else
      var e := history[|history| - 1];
      if e.name != name then Current(history[..|history| - 1], name) else if e.Died? then 0 else e.ptr
  }

  /** Whether isolated processes may have the service: as said when it was first added. */
  function FirstFlag(history: seq<Event>, name: Name): Option<bool> {
    if history == [] then None
    else
      var e, before := history[|history| - 1], FirstFlag(history[..|history| - 1], name);
      if before.None? && e.name == name && e.Added? then Some(e.isolated) else before
  }

  /** The names ever added, latest first. */
  function Names(history: seq<Event>): seq<Name> {
    if history == [] then []
    else
      var e, before := history[|history| - 1], Names(history[..|history| - 1]);
      if e.Added? && e.name !in before then [e.name] + before else before
  }

  predicate Isolated(uid: nat) { AID_ISOLATED_START <= uid % AID_USER <= AID_ISOLATED_END }

  /** Acquires less releases of a handle. */
  function Net(log: seq<Request>, h: Handle): int {
    if log == [] then 0
    else
      var r := log[|log| - 1];
      Net(log[..|log| - 1], h) + (if r == Acquire(h) then 1 else if r == Release(h) then -1 else 0)
  }

  /** How many entries hold a handle. */
  function Holding(list: seq<Entry>, h: Handle): nat {
    if list == [] then 0 else (if list[0].ptr == h then 1 else 0) + Holding(list[1..], h)
  }

  lemma {:induction false} HoldingUpdate(list: seq<Entry>, i: nat, e: Entry, h: Handle)
    requires i < |list|
    ensures Holding(list[i := e], h) ==
      Holding(list, h) - (if list[i].ptr == h then 1 else 0) + (if e.ptr == h then 1 else 0)
    decreases |list|
  {
    if i > 0 {
      assert list[i := e][1..] == list[1..][i - 1 := e];
      HoldingUpdate(list[1..], i - 1, e, h);
    } else {
      assert list[i := e][1..] == list[1..];
    }
  }

  lemma NetNext(log: seq<Request>, r: Request, h: Handle)
    ensures Net(log + [r], h) == Net(log, h) + (if r == Acquire(h) then 1 else if r == Release(h) then -1 else 0)
  {
    assert (log + [r])[..|log|] == log;
  }

  /** Names are listed once each, and are those with a first registration. */
  lemma {:induction false} NamesOnce(history: seq<Event>)
    ensures forall i, j :: 0 <= i < j < |Names(history)| ==> Names(history)[i] != Names(history)[j]
    ensures forall name :: name in Names(history) <==> FirstFlag(history, name).Some?
    decreases |history|
  {
    if history != [] { NamesOnce(history[..|history| - 1]); }
  }

  /** The last event under a name decides what is current: nothing after a death, and otherwise
      the handle added. */
  lemma {:induction false} CurrentIsLast(history: seq<Event>, i: nat)
    requires i < |history| && forall j :: i < j < |history| ==> history[j].name != history[i].name
    ensures Current(history, history[i].name) == if history[i].Added? then history[i].ptr else 0
    decreases |history|
  {
    if i < |history| - 1 { CurrentIsLast(history[..|history| - 1], i); }
  }

  /** The flag is that of the first registration, whatever came after it. */
  lemma {:induction false} FlagIsFirst(history: seq<Event>, i: nat)
    requires i < |history| && history[i].Added?
    requires forall j :: 0 <= j < i && history[j].name == history[i].name ==> history[j].Died?
    ensures FirstFlag(history, history[i].name) == Some(history[i].isolated)
    decreases |history|
  {
    var before := history[..|history| - 1];
    if i < |before| { FlagIsFirst(before, i); } else { NoFlag(before, history[i].name); }
  }

  lemma {:induction false} NoFlag(history: seq<Event>, name: Name)
    requires forall j :: 0 <= j < |history| && history[j].name == name ==> history[j].Died?
    ensures FirstFlag(history, name).None?
    decreases |history|
  {
    if history != [] { NoFlag(history[..|history| - 1], name); }
  }

  /** What is shown of a name is all of it up to its first NUL. */
  lemma {:induction false} ShownIsPrefix(s: Name)
    ensures Shown(s) <= s && 0 !in Shown(s) && (|Shown(s)| < |s| ==> s[|Shown(s)|] == 0)
    decreases |s|
  {
    if s != [] && s[0] != 0 {
      ShownIsPrefix(s[1..]);
      assert s == [s[0]] + s[1..];
    }
  }

  lemma HistoryNext(history: seq<Event>, e: Event)
    ensures forall name ::
      Current(history + [e], name) ==
        (if e.name != name then Current(history, name) else if e.Died? then 0 else e.ptr)
    ensures forall name ::
      FirstFlag(history + [e], name) ==
        if FirstFlag(history, name).None? && e.name == name && e.Added? then Some(e.isolated)
          else FirstFlag(history, name)
    ensures Names(history + [e]) == if e.Added? && e.name !in Names(history) then [e.name] + Names(history)
      else Names(history)
  {
    assert (history + [e])[..|history|] == history;
  }

  lemma {:induction false} NeverAdded(history: seq<Event>, name: Name)
    requires FirstFlag(history, name).None?
    ensures Current(history, name) == 0
    decreases |history|
  {
    if history != [] { NeverAdded(history[..|history| - 1], name); }
  }

  /** The list says what the history says. */
  ghost predicate Agrees(list: seq<Entry>, history: seq<Event>) {
    && |list| == |Names(history)|
    && forall i :: 0 <= i < |list| ==> Entered(list[i], history, Names(history)[i])
  }

  ghost predicate Entered(e: Entry, history: seq<Event>, name: Name) {
    e.name == name && e.ptr == Current(history, name) && FirstFlag(history, name) == Some(e.isolated)
  }

  lemma {:induction false} DiedAgrees(list: seq<Entry>, history: seq<Event>, i: nat)
    requires Agrees(list, history) && i < |list|
    ensures Agrees(list[i := list[i].(ptr := 0)], history + [Died(list[i].name)])
  {
    var e, list' := Died(list[i].name), list[i := list[i].(ptr := 0)];
    NamesOnce(history);
    HistoryNext(history, e);
    forall j | 0 <= j < |list| ensures Entered(list'[j], history + [e], Names(history)[j]) {
      assert Entered(list[j], history, Names(history)[j]) && Entered(list[i], history, Names(history)[i]);
    }
  }

  lemma {:induction false} OverrideAgrees(list: seq<Entry>, history: seq<Event>, i: nat, ptr: Handle, isolated: bool)
    requires Agrees(list, history) && i < |list|
    ensures Agrees(list[i := list[i].(ptr := ptr)], history + [Added(list[i].name, ptr, isolated)])
  {
    var e, list' := Added(list[i].name, ptr, isolated), list[i := list[i].(ptr := ptr)];
    NamesOnce(history);
    HistoryNext(history, e);
    assert Entered(list[i], history, Names(history)[i]);
    forall j | 0 <= j < |list| ensures Entered(list'[j], history + [e], Names(history)[j]) {
      assert Entered(list[j], history, Names(history)[j]);
    }
  }

  lemma {:induction false} FirstAgrees(list: seq<Entry>, history: seq<Event>, e: Entry)
    requires Agrees(list, history) && e.name !in Names(history)
    ensures Agrees([e] + list, history + [Added(e.name, e.ptr, e.isolated)])
  {
    var now, list' := history + [Added(e.name, e.ptr, e.isolated)], [e] + list;
    NamesOnce(history);
    HistoryNext(history, Added(e.name, e.ptr, e.isolated));
    forall j | 0 <= j < |list'| ensures Entered(list'[j], now, Names(now)[j]) {
      if j > 0 { assert Entered(list[j - 1], history, Names(history)[j - 1]); }
    }
  }

  // ---- The registry ---------------------------------------------------------------------------

  /** str16eq of a name with one that has no NUL: equal up to the first NUL. */
  method Same16(a: Name, b: Name) returns (same: bool)
    requires 0 !in b
    ensures same <==> b == Shown(a)
  {
    var n := 0;
    while n < |a| && a[n] != 0 && n < |b|
      invariant 0 <= n <= |a| && n <= |b|
      invariant b == Shown(a) <==> b[n..] == Shown(a[n..])
    {
      assert b[n..] == [b[n]] + b[n + 1..] && a[n..][1..] == a[n + 1..];
      if a[n] != b[n] {
        assert b[n..][0] == b[n] && Shown(a[n..])[0] == a[n];
        return false;
      }
      assert Shown(a[n..])[1..] == Shown(a[n + 1..]) && b[n..][1..] == b[n + 1..];
      n := n + 1;
    }
    return (n == |a| || a[n] == 0) && n == |b|;
  }

  function Releases(h: Handle): seq<Request> { if h != 0 then [Release(h)] else [] }

  class Registry {
    const allowed: seq<(nat, Name)>
    var list: seq<Entry>
    ghost var history: seq<Event>
    ghost var log: seq<Request>

    /** The list agrees with the history, and the handles acquired and not released are those
        the entries hold. */
    ghost predicate Valid()
      reads this
    {
      && (forall i :: 0 <= i < |allowed| ==> 0 !in allowed[i].1)
      && Agrees(list, history)
      && (forall h :: h != 0 ==> Net(log, h) == Holding(list, h))
    }

    constructor (allowed: seq<(nat, Name)>)
      requires forall i :: 0 <= i < |allowed| ==> 0 !in allowed[i].1
      ensures Valid() && history == [] && log == [] && this.allowed == allowed
    {
      this.allowed := allowed;
      list, history, log := [], [], [];
    }

    /** svc_can_register. */
    method MayRegister(uid: nat, name: Name) returns (ok: bool)
      requires Valid()
      ensures ok == CanRegister(allowed, uid, name)
    {
      if uid == 0 || uid == AID_SYSTEM { return true; }
      var n := 0;
      while n < |allowed|
        invariant 0 <= n <= |allowed| && forall i :: 0 <= i < n ==> allowed[i] != (uid, Shown(name))
      {
        var same := Same16(name, allowed[n].1);
        if uid == allowed[n].0 && same { return true; }
        n := n + 1;
      }
      return false;
    }

    /** find_svc. */
    method Find(name: Name) returns (at: Option<nat>)
      ensures at.Some? ==> at.value < |list| && list[at.value].name == name
      ensures at.None? ==> forall i :: 0 <= i < |list| ==> list[i].name != name
    {
      var i := 0;
      while i < |list|
        invariant 0 <= i <= |list| && forall j :: 0 <= j < i ==> list[j].name != name
      {
        if list[i].name == name { return Some(i); }
        i := i + 1;
      }
      return None;
    }

    /** svcinfo_death: the entry gives back its handle. */
    method Drop(i: nat)
      requires i < |list|
      modifies `list, `log
      ensures list == old(list)[i := old(list)[i].(ptr := 0)]
      ensures log == old(log) + Releases(old(list)[i].ptr)
      ensures forall h :: h != 0 ==> Net(log, h) - Holding(list, h) == old(Net(log, h) - Holding(list, h))
    {
      ghost var was := list;
      if list[i].ptr != 0 {
        ghost var r := Release(list[i].ptr);
        forall h | h != 0 ensures Net(log + [r], h) == Net(log, h) - if h == was[i].ptr then 1 else 0 {
          NetNext(log, r, h);
        }
        log := log + [r];
        list := list[i := list[i].(ptr := 0)];
      } else {
        assert list == list[i := list[i].(ptr := 0)];
      }
      forall h | h != 0 ensures Holding(list, h) == Holding(was, h) - if h == was[i].ptr then 1 else 0 {
        HoldingUpdate(was, i, was[i].(ptr := 0), h);
      }
    }

    /** The death callback of entry `i`, whichever handle it was linked for. */
    method Death(i: nat)
      requires Valid() && i < |list|
      modifies `list, `log, `history
      ensures Valid() && history == old(history) + [Died(old(list)[i].name)]
    {
      DiedAgrees(list, history, i);
      Drop(i);
      history := history + [Died(list[i].name)];
    }

    /** do_find_service. */
    method Lookup(name: Name, uid: nat) returns (h: Handle)
      requires Valid()
      ensures h == if FirstFlag(history, name) == Some(false) && Isolated(uid) then 0 else Current(history, name)
    {
      var at := Find(name);
      if at.Some? {
        var e := list[at.value];
        assert Entered(e, history, Names(history)[at.value]);
        if e.ptr != 0 {
          if !e.isolated {
            var appid := uid % AID_USER;
            if AID_ISOLATED_START <= appid <= AID_ISOLATED_END { return 0; }
          }
          return e.ptr;
        }
        return 0;
      }
      Unlisted(name);
      return 0;
    }

    lemma Unlisted(name: Name)
      requires Valid() && forall i :: 0 <= i < |list| ==> list[i].name != name
      ensures name !in Names(history) && FirstFlag(history, name).None? && Current(history, name) == 0
    {
      forall i | 0 <= i < |list| ensures Names(history)[i] != name {
        assert Entered(list[i], history, Names(history)[i]);
      }
      NamesOnce(history);
      NeverAdded(history, name);
    }

    /** do_add_service. */
    method AddService(name: Name, ptr: Handle, uid: nat, isolated: bool) returns (ok: bool)
      requires Valid()
      modifies `list, `log, `history
      ensures Valid() && ok == (ptr != 0 && 0 < |name| <= 127 && CanRegister(allowed, uid, name))
      ensures !ok ==> history == old(history) && list == old(list) && log == old(log)
      ensures ok ==> history == old(history) + [Added(name, ptr, isolated)]
      ensures ok ==> log == old(log) + Releases(Current(old(history), name)) + [Acquire(ptr), LinkToDeath(ptr, name)]
    {
      ok := ptr != 0 && 0 < |name| <= 127;
      if ok { ok := MayRegister(uid, name); }
      if !ok { return; }
      Enter(name, ptr, isolated);
      Link(ptr, name);
    }

    /** The entry of that name gets the handle, or a new one is made. */
    method Enter(name: Name, ptr: Handle, isolated: bool)
      requires Valid() && ptr != 0
      modifies `list, `log, `history
      ensures Valid() && history == old(history) + [Added(name, ptr, isolated)]
      ensures log == old(log) + Releases(Current(old(history), name)) + [Acquire(ptr)]
    {
      var at := Find(name);
      if at.Some? {
        assert Entered(list[at.value], history, Names(history)[at.value]);
        OverrideAgrees(list, history, at.value, ptr, isolated);
        Override(at.value, ptr);
      } else {
        Unlisted(name);
        FirstAgrees(list, history, Entry(name, ptr, isolated));
        Prepend(Entry(name, ptr, isolated));
      }
      history := history + [Added(name, ptr, isolated)];
    }

    method Override(i: nat, ptr: Handle)
      requires i < |list| && ptr != 0
      modifies `list, `log
      ensures list == old(list)[i := old(list)[i].(ptr := ptr)]
      ensures log == old(log) + Releases(old(list)[i].ptr) + [Acquire(ptr)]
      ensures forall h :: h != 0 ==> Net(log, h) - Holding(list, h) == old(Net(log, h) - Holding(list, h))
    {
      Drop(i);
      Hold(i, ptr);
    }

    method Link(ptr: Handle, name: Name)
      modifies `log
      ensures log == old(log) + [LinkToDeath(ptr, name)] && forall h :: Net(log, h) == old(Net(log, h))
    {
      forall h ensures Net(log + [LinkToDeath(ptr, name)], h) == Net(log, h) {
        NetNext(log, LinkToDeath(ptr, name), h);
      }
      log := log + [LinkToDeath(ptr, name)];
    }

    method Hold(i: nat, ptr: Handle)
      requires i < |list| && list[i].ptr == 0 && ptr != 0
      modifies `list, `log
      ensures list == old(list)[i := old(list)[i].(ptr := ptr)] && log == old(log) + [Acquire(ptr)]
      ensures forall h :: h != 0 ==> Net(log, h) - Holding(list, h) == old(Net(log, h) - Holding(list, h))
    {
      forall h | h != 0
        ensures Net(log + [Acquire(ptr)], h) - Holding(list[i := list[i].(ptr := ptr)], h) ==
          Net(log, h) - Holding(list, h)
      {
        NetNext(log, Acquire(ptr), h);
        HoldingUpdate(list, i, list[i].(ptr := ptr), h);
      }
      list := list[i := list[i].(ptr := ptr)];
      log := log + [Acquire(ptr)];
    }

    method Prepend(e: Entry)
      requires e.ptr != 0
      modifies `list, `log
      ensures list == [e] + old(list) && log == old(log) + [Acquire(e.ptr)]
      ensures forall h :: h != 0 ==> Net(log, h) - Holding(list, h) == old(Net(log, h) - Holding(list, h))
    {
      ghost var list' := [e] + list;
      assert list'[1..] == list;
      forall h | h != 0 ensures Net(log + [Acquire(e.ptr)], h) - Holding(list', h) == Net(log, h) - Holding(list, h) {
        NetNext(log, Acquire(e.ptr), h);
      }
      list := [e] + list;
      log := log + [Acquire(e.ptr)];
    }

    /** The list call: the n-th name, or an error past the end. Since names are listed once
        each, counting n up from 0 meets each once. */
    method NameAt(n: nat) returns (name: Option<Name>)
      requires Valid()
      ensures name == if n < |Names(history)| then Some(Names(history)[n]) else None
    {
      var i, left := 0, n;
      while left > 0 && i < |list|
        invariant i <= |list| && i + left == n
      {
        i, left := i + 1, left - 1;
      }
      if i < |list| {
        assert Entered(list[i], history, Names(history)[i]);
        return Some(list[i].name);
      }
      return None;
    }
  }
}
