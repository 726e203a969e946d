/** The mounts an init makes, as a tree of places: which of them a lookup reaches. */
module MountTree {
  import opened Bytes
  import opened Outcomes
  import opened KernelFormat
  import opened Setup
  import Sysctl

  // --------------------------------------------------------------- places

  /** The names from the root to a directory or file. */
  type Place = seq<bytes>

  function Unterminated(path: bytes): bytes {
    if path != [] && path[|path| - 1] == 0 then path[..|path| - 1] else path
  }

  /** Empty names and "." go nowhere. */
  function Named(names: seq<bytes>): Place {
    if names == [] then []
    else if names[0] == [] || names[0] == [Sysctl.DOT] then Named(names[1..])
    else [names[0]] + Named(names[1..])
  }

  /** Where a NUL-terminated path leads, symbolic links and ".." aside. */
  function PlaceOf(path: bytes): Place {
    Named(Sysctl.Components(Unterminated(path)))
  }

  predicate Above(q: Place, p: Place) {
    q < p
  }

  lemma RootPlace()
    ensures PlaceOf(ROOT) == []
  {
    assert Unterminated(ROOT) == [Sysctl.SLASH];
    var empty: seq<bytes> := [[], []];
    assert Sysctl.Components([]) == [[]];
    assert Sysctl.Components([Sysctl.SLASH]) == empty;
    assert empty[1..] == [[]] && empty[1..][1..] == [];
  }

  // ---------------------------------------------------------------- mounts

  /** A mount, with the flags in force and the event that made it. */
  datatype Layer = Layer(src: Option<bytes>, typ: Option<bytes>, flags: u64, at: nat)

  const MS_UNBINDABLE := 0x2_0000
  const MS_SLAVE := 0x8_0000
  const MS_SHARED := 0x10_0000

  predicate Remounts(flags: u64) {
    BitSet(flags, MS_REMOUNT)
  }

  /** mount(2) tries a remount, then a bind, then a change of propagation. */
  predicate Propagates(flags: u64) {
    !Remounts(flags) && !BitSet(flags, MS_BIND)
    && (BitSet(flags, MS_PRIVATE) || BitSet(flags, MS_UNBINDABLE) || BitSet(flags, MS_SLAVE)
      || BitSet(flags, MS_SHARED))
  }

  predicate Pushes(flags: u64) {
    !Remounts(flags) && !Propagates(flags)
  }

  /** A bind cannot be combined with a flag change: it takes nothing but the recursive
      bit from its own call. */
  function InForce(flags: u64): u64 {
    if !BitSet(flags, MS_BIND) then flags
    else if BitSet(flags, MS_REC) then MS_BIND + MS_REC
    else MS_BIND
  }

  /** The layer a lookup of the place ends on: the topmost, except that "/" stays the
      root of the init, whatever is mounted over it. */
  function Reached(layers: seq<Layer>, d: Place): nat
    requires layers != []
  {
    if d == [] then 0 else |layers| - 1
  }

  function Reach(layers: seq<Layer>, d: Place): Option<Layer> {
    if layers == [] then None else Some(layers[Reached(layers, d)])
  }

  function Remounted(layers: seq<Layer>, d: Place, flags: u64): seq<Layer> {
    if layers == [] then [] else
      var r := Reached(layers, d);
      layers[r := layers[r].(flags := flags)]
  }

  /** What the rootfs directory lies on: a remount of it succeeds only if it is a mount. */
  function Base(under: u64): Layer {
    Layer(None, None, under, 0)
  }

  /** The root after a chroot into a place with these layers. */
  function RootOf(under: u64, layers: seq<Layer>, r: Place): seq<Layer> {
    if layers == [] then [Base(under)] else [layers[Reached(layers, r)]]
  }

  /** A mount on a place changes what is below it too, except on "/", since lookups go
      through the root and not what is mounted over it. */
  predicate Affects(c: Call, d: Place) {
    c.Mount? && !Propagates(c.flags)
    && (PlaceOf(c.dir) == d || (PlaceOf(c.dir) != [] && PlaceOf(c.dir) <= d && !Remounts(c.flags)))
  }

  predicate RecursiveBind(c: Call) {
    c.Mount? && BitSet(c.flags, MS_BIND) && BitSet(c.flags, MS_REC) && c.src.Some?
  }

  /** The place whose mounts a recursive bind puts here. */
  function Origin(c: Call, d: Place): Place
    requires RecursiveBind(c) && PlaceOf(c.dir) <= d
  {
    PlaceOf(c.src.value) + d[|PlaceOf(c.dir)|..]
  }

  function Cloned(layers: seq<Layer>, at: nat): (r: seq<Layer>)
    ensures |r| == |layers| && forall i :: 0 <= i < |r| ==> r[i] == layers[i].(at := at)
  {
    seq(|layers|, i requires 0 <= i < |layers| => layers[i].(at := at))
  }

  /** The layers setup put on a place, as the init can reach them: a mount above hides
      those below it, and only a recursive bind brings along what its source has. */
  function Layers(under: u64, t: seq<Event>, d: Place): seq<Layer>
    decreases |t|
  {
    if t == [] then (if d == [] then [Base(under)] else []) else
      var n := |t| - 1;
      var (before, c) := (t[..n], t[n].call);
      if t[n].rc != 0 then Layers(under, before, d)
      else if c.Chroot? then
        if d == [] then RootOf(under, Layers(under, before, PlaceOf(c.path)), PlaceOf(c.path))
        else Layers(under, before, PlaceOf(c.path) + d)
      else if !Affects(c, d) then Layers(under, before, d)
      else if Remounts(c.flags) then Remounted(Layers(under, before, d), d, c.flags)
      else if PlaceOf(c.dir) == d then Layers(under, before, d) + [Layer(c.src, c.typ, InForce(c.flags), n)]
      else if RecursiveBind(c) then Cloned(Layers(under, before, Origin(c, d)), n)
      else []
  }

  /** The mount a lookup of the place ends in. */
  function Lands(under: u64, t: seq<Event>, p: Place): Option<Layer>
    decreases |p|
  {
    var layers := Layers(under, t, p);
    if layers != [] then Reach(layers, p)
    else if p == [] then None
    else Lands(under, t, p[..|p| - 1])
  }

  // ----------------------------------------------------- one event at a time

  lemma Unaffected(under: u64, t: seq<Event>, e: Event, d: Place)
    requires e.rc != 0 || (!e.call.Chroot? && !Affects(e.call, d))
    ensures Layers(under, t + [e], d) == Layers(under, t, d)
  {
    assert (t + [e])[..|t|] == t;
  }

  lemma RemountStep(under: u64, t: seq<Event>, e: Event, d: Place)
    requires e.rc == 0 && Affects(e.call, d) && Remounts(e.call.flags)
    ensures Layers(under, t + [e], d) == Remounted(Layers(under, t, d), d, e.call.flags)
  {
    assert (t + [e])[..|t|] == t;
  }

  lemma PushStep(under: u64, t: seq<Event>, e: Event, d: Place)
    requires e.rc == 0 && Affects(e.call, d) && !Remounts(e.call.flags) && PlaceOf(e.call.dir) == d
    ensures var c := e.call;
      Layers(under, t + [e], d) == Layers(under, t, d) + [Layer(c.src, c.typ, InForce(c.flags), |t|)]
  {
    assert (t + [e])[..|t|] == t;
  }

  lemma HideStep(under: u64, t: seq<Event>, e: Event, d: Place)
    requires e.rc == 0 && Affects(e.call, d) && !Remounts(e.call.flags) && PlaceOf(e.call.dir) != d
    ensures Layers(under, t + [e], d) ==
      if RecursiveBind(e.call) then Cloned(Layers(under, t, Origin(e.call, d)), |t|) else []
  {
    assert (t + [e])[..|t|] == t;
  }

  lemma ChrootStep(under: u64, t: seq<Event>, e: Event)
    requires e.rc == 0 && e.call.Chroot?
    ensures var r := PlaceOf(e.call.path);
      Layers(under, t + [e], []) == RootOf(under, Layers(under, t, r), r)
  {
    assert (t + [e])[..|t|] == t;
  }

  // --------------------------------------------------- what stays reachable

  /** A successful mount at the place or above it. */
  predicate Covers(e: Event, q: Place) {
    e.rc == 0 && e.call.Mount? && Pushes(e.call.flags)
    && PlaceOf(e.call.dir) <= q && (PlaceOf(e.call.dir) != [] || q == [])
  }

  /** The mount of this event is the one reached. */
  predicate Kept(under: u64, t: seq<Event>, q: Place, n: nat) {
    var l := Reach(Layers(under, t, q), q);
    l.Some? && l.value.at == n
  }

  lemma KeptStep(under: u64, t: seq<Event>, e: Event, q: Place, n: nat)
    requires q != [] && n < |t| && !e.call.Chroot?
    ensures Kept(under, t + [e], q, n) <==> Kept(under, t, q, n) && !Covers(e, q)
  {
    hide Layers, PlaceOf, Remounts, Propagates, InForce, RecursiveBind;
    if e.rc != 0 || !Affects(e.call, q) {
      Unaffected(under, t, e, q);
    } else if Remounts(e.call.flags) {
      RemountStep(under, t, e, q);
    } else if PlaceOf(e.call.dir) == q {
      PushStep(under, t, e, q);
    } else {
      HideStep(under, t, e, q);
    }
  }

  /** A mount is still reached exactly if no later one covers it. */
  lemma {:induction false} KeptIff(under: u64, t: seq<Event>, q: Place, n: nat)
    requires q != [] && n < |t| && Kept(under, t[..n + 1], q, n)
    requires forall m :: n < m < |t| ==> !t[m].call.Chroot?
    ensures Kept(under, t, q, n) <==> forall m :: n < m < |t| ==> !Covers(t[m], q)
    decreases |t|
  {
    hide Kept, Covers;
    var k := |t| - 1;
    assert t == t[..k] + [t[k]];
    if n == k {
      assert t[..n + 1] == t;
    } else {
      assert t[..k][..n + 1] == t[..n + 1];
      KeptIff(under, t[..k], q, n);
      KeptStep(under, t[..k], t[k], q, n);
    }
  }

  /** A bind of a place onto itself, below which nothing is brought along. */
  predicate SelfBind(c: Call) {
    c.Mount? && c.src.Some? && PlaceOf(c.src.value) == PlaceOf(c.dir) && c.typ.None?
  }

  /** A layer that is the place itself over again. */
  predicate Again(l: Layer, d: Place) {
    l.src.Some? && PlaceOf(l.src.value) == d && l.typ.None?
  }

  /** What a place shows: binds of it onto itself show what it showed before. */
  function Shows(layers: seq<Layer>, d: Place): Option<Layer> {
    if layers == [] then None else
      var n := |layers| - 1;
      if Again(layers[n], d) then Shows(layers[..n], d) else Some(layers[n])
  }

  predicate Shown(under: u64, t: seq<Event>, q: Place, n: nat) {
    var l := Shows(Layers(under, t, q), q);
    l.Some? && l.value.at == n
  }

  /** Another mount on the place, or any above it. */
  predicate Uncovers(e: Event, q: Place) {
    Covers(e, q) && !(PlaceOf(e.call.dir) == q && SelfBind(e.call))
  }

  lemma {:induction false} ShowsAt(layers: seq<Layer>, d: Place, at: nat)
    requires forall i :: 0 <= i < |layers| ==> layers[i].at == at
    ensures Shows(layers, d).Some? ==> Shows(layers, d).value.at == at
  {
    if layers != [] {
      ShowsAt(layers[..|layers| - 1], d, at);
    }
  }

  lemma ShowsRemounted(layers: seq<Layer>, d: Place, flags: u64)
    requires d != [] && layers != []
    ensures var r := Shows(Remounted(layers, d, flags), d);
      var s := Shows(layers, d);
      r.Some? == s.Some? && (r.Some? ==> r.value.at == s.value.at)
  {
    var n := |layers| - 1;
    assert Remounted(layers, d, flags)[..n] == layers[..n];
  }

  lemma ShownStep(under: u64, t: seq<Event>, e: Event, q: Place, n: nat)
    requires q != [] && n < |t| && !e.call.Chroot?
    ensures Shown(under, t + [e], q, n) <==> Shown(under, t, q, n) && !Uncovers(e, q)
  {
    hide Layers, PlaceOf, Remounts, Propagates, InForce, RecursiveBind;
    var layers := Layers(under, t, q);
    if e.rc != 0 || !Affects(e.call, q) {
      Unaffected(under, t, e, q);
    } else if Remounts(e.call.flags) {
      RemountStep(under, t, e, q);
      if layers != [] {
        ShowsRemounted(layers, q, e.call.flags);
      }
    } else if PlaceOf(e.call.dir) == q {
      PushStep(under, t, e, q);
      var l := Layer(e.call.src, e.call.typ, InForce(e.call.flags), |t|);
      assert (layers + [l])[..|layers|] == layers;
    } else {
      HideStep(under, t, e, q);
      ShowsAt(Layers(under, t + [e], q), q, |t|);
    }
  }

  /** A place shows a mount as long as nothing else is mounted on it or above. */
  lemma {:induction false} ShownIff(under: u64, t: seq<Event>, q: Place, n: nat)
    requires q != [] && n < |t| && Shown(under, t[..n + 1], q, n)
    requires forall m :: n < m < |t| ==> !t[m].call.Chroot?
    ensures Shown(under, t, q, n) <==> forall m :: n < m < |t| ==> !Uncovers(t[m], q)
    decreases |t|
  {
    hide Shown, Uncovers;
    var k := |t| - 1;
    assert t == t[..k] + [t[k]];
    if n == k {
      assert t[..n + 1] == t;
    } else {
      assert t[..k][..n + 1] == t[..n + 1];
      ShownIff(under, t[..k], q, n);
      ShownStep(under, t[..k], t[k], q, n);
    }
  }
}
