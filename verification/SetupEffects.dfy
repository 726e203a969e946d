/** The calls an init makes on its way to exec, each written out by what it is given:
    a description of its traces that does not go through its plan. */
module SetupEffects {
  import opened Bytes
  import opened Outcomes
  import opened KernelFormat
  import opened Setup
  import opened SetupProofs

  // ------------------------------------------------------- what was called

  /** One call with this answer or any. */
  predicate Succeeded(e: seq<Event>, c: Call) {
    e == [Event(c, 0)]
  }

  predicate Tried(e: seq<Event>, c: Call) {
    |e| == 1 && e[0].call == c
  }

  /** The host name without its terminator, if there is one. */
  predicate HostEvents(a: ContainerArgs, e: seq<Event>) {
    if |a.hostname| <= 1 then e == [] else
      |e| == 1 && e[0].call.SetHostname? && e[0].call.name + [a.hostname[|a.hostname| - 1]] == a.hostname
  }

  /** "/" made private with all below it. */
  predicate PrivateEvent(e: Event) {
    e.call == Mount(None, C("/"), None, 16384 + 262144)
  }

  predicate RootEvents(a: ContainerArgs, e: seq<Event>) {
    if !a.readonlyRootfs then e == [] else
      && |e| == 2 && PrivateEvent(e[0])
      && e[1] == Event(Mount(Some(a.rootfs), a.rootfs, None, 4096 + 16384), 0)
  }

  /** What a mount call is given for a text: nothing if it holds only its terminator. */
  predicate TextOrNull(given: Option<bytes>, text: bytes) {
    if |text| <= 1 then given == None else given == Some(text)
  }

  predicate MountEvent(m: MountSpec, c: Call) {
    && c.Mount? && TextOrNull(c.src, m.source) && c.dir == m.destination
    && TextOrNull(c.typ, m.fsType) && c.flags == m.flags
  }

  /** A configured mount, after its directory if it has a type. */
  predicate MountEvents(m: MountSpec, e: seq<Event>) {
    if |m.destination| <= 1 then e == []
    else if |m.fsType| <= 1 then |e| == 1 && MountEvent(m, e[0].call)
    else |e| == 2 && e[0].call == Mkdir(m.destination) && MountEvent(m, e[1].call)
  }

  /** The nodes and links, if some tmpfs is configured on "/dev". */
  predicate DeviceEvents(mounts: seq<MountSpec>, e: seq<Event>) {
    if exists i :: 0 <= i < |mounts| && OwnDev(mounts[i]) then
      |e| == 11 && NodeEvents(e[..6]) && LinkEvents(e[6..])
    else e == []
  }

  predicate NodeEvents(e: seq<Event>)
    requires |e| == 6
  {
    && e[0].call == Mknod(C("/dev/null"), 1, 3) && e[1].call == Mknod(C("/dev/zero"), 1, 5)
    && e[2].call == Mknod(C("/dev/full"), 1, 7) && e[3].call == Mknod(C("/dev/random"), 1, 8)
    && e[4].call == Mknod(C("/dev/urandom"), 1, 9) && e[5].call == Mknod(C("/dev/tty"), 5, 0)
  }

  predicate LinkEvents(e: seq<Event>)
    requires |e| == 5
  {
    && e[0].call == Symlink(C("/dev/fd"), C("/proc/self/fd"))
    && e[1].call == Symlink(C("/dev/stdin"), C("/proc/self/fd/0"))
    && e[2].call == Symlink(C("/dev/stdout"), C("/proc/self/fd/1"))
    && e[3].call == Symlink(C("/dev/stderr"), C("/proc/self/fd/2"))
    && e[4].call == Symlink(C("/dev/ptmx"), C("pts/ptmx"))
  }

  predicate OwnDev(m: MountSpec) {
    m.destination == C("/dev") && m.fsType == C("tmpfs")
  }

  /** "name=value", perhaps terminated: the value goes to the file of that name. */
  ghost predicate SysctlEvents(entry: bytes, e: seq<Event>) {
    if 0x3D !in entry then e == [] else
      && |e| == 1 && e[0].call.WriteFile?
      && exists name: bytes :: WritesTo(e[0].call, name) && Assigns(entry, name, e[0].call.data)
  }

  predicate WritesTo(c: Call, name: bytes) {
    c.WriteFile? && 0x3D !in name && c.path == Ascii("/proc/sys/") + name + [0]
  }

  predicate Assigns(entry: bytes, name: bytes, value: bytes) {
    if entry != [] && entry[|entry| - 1] == 0 then entry == name + [0x3D] + value + [0]
    else entry == name + [0x3D] + value
  }

  /** A bind of "/dev/null" over the path, else a read-only tmpfs. */
  predicate MaskEvents(p: bytes, e: seq<Event>) {
    if |p| <= 1 then e == [] else
      && |e| == (if e != [] && e[0].rc == 0 then 1 else 2)
      && e[0].call == Mount(Some(C("/dev/null")), p, None, 4096)
      && (|e| == 2 ==> e[1].call == Mount(Some(C("tmpfs")), p, Some(C("tmpfs")), 1))
  }

  /** A bind of the path onto itself; if it succeeds, a read-only remount. */
  predicate ReadonlyEvents(p: bytes, e: seq<Event>) {
    if |p| <= 1 then e == [] else
      && |e| == (if e != [] && e[0].rc == 0 then 2 else 1)
      && e[0].call == Mount(Some(p), p, None, 4096)
      && (|e| == 2 ==> e[1].call == Mount(None, p, None, 32 + 4096 + 1))
  }

  predicate RlimitEvents(r: Rlimit, e: seq<Event>) {
    && |e| == 1 && e[0].call.SetRlimit? && e[0].call.limit.resource == r.resource
    && e[0].call.limit.soft == r.soft && e[0].call.limit.hard == r.hard
  }

  predicate OomEvents(oom: Option<i32>, e: seq<Event>) {
    if oom.None? then e == [] else Tried(e, SetOomScore(oom.value))
  }

  predicate SealEvents(a: ContainerArgs, e: seq<Event>) {
    if a.readonlyRootfs then Succeeded(e, Mount(None, C("/"), None, 32 + 4096 + 1)) else e == []
  }

  predicate CredsEvents(a: ContainerArgs, e: seq<Event>) {
    && |e| == 1 && e[0].call.ApplyCreds? && e[0].call.caps == a.caps && e[0].call.uid == a.uid
    && e[0].call.gid == a.gid && e[0].call.noNewPrivs == a.noNewPrivs
  }

  /** The first 32 of a list, or all of it. */
  predicate First32<T(==)>(xs: seq<T>, all: seq<T>) {
    if |all| <= 32 then xs == all else xs == all[..32]
  }

  predicate ExecEvents(a: ContainerArgs, e: seq<Event>) {
    && |e| == 1 && e[0].rc == 0 && e[0].call.Exec? && a.argv != [] && First32(e[0].call.argv, a.argv)
    && (if a.envp == [] then IsDefaultEnv(e[0].call.envp) else First32(e[0].call.envp, a.envp))
  }

  predicate IsDefaultEnv(envp: seq<bytes>) {
    && |envp| == 4 && envp[0] == C("PATH=/bin:/sbin:/usr/bin:/usr/sbin") && envp[1] == C("HOME=/")
    && envp[2] == C("TERM=linux") && envp[3] == C("container=krunc")
  }

  /** One after the other what happened for each item of a list. */
  ghost predicate Series<T(!new)>(items: seq<T>, one: (T, seq<Event>) -> bool, e: seq<Event>)
    decreases |items|
  {
    if items == [] then e == [] else
      exists k: nat :: k <= |e| && one(items[0], e[..k]) && Series(items[1..], one, e[k..])
  }

  ghost predicate LimitEvents(a: ContainerArgs, e: seq<Event>) {
    exists j: nat :: j <= |e| && Series(a.rlimits, RlimitEvents, e[..j]) && OomEvents(a.oomScoreAdj, e[j..])
  }

  /** The events of the `k`-th stage. */
  ghost predicate StageEvents(a: ContainerArgs, k: nat, e: seq<Event>)
    requires k < 14
  {
    match k
    case 0 => HostEvents(a, e)
    case 1 => if a.userns then Succeeded(e, UsernsCreds) else e == []
    case 2 => RootEvents(a, e)
    case 3 => Succeeded(e, Chroot(a.rootfs))
    case 4 => |e| == 1 && PrivateEvent(e[0])
    case 5 => Series(a.mounts, MountEvents, e)
    case 6 => DeviceEvents(a.mounts, e)
    case 7 => Series(a.sysctls, SysctlEvents, e)
    case 8 => Series(a.masked, MaskEvents, e)
    case 9 => Series(a.readonly, ReadonlyEvents, e)
    case 10 => LimitEvents(a, e)
    case 11 => SealEvents(a, e)
    case 12 => CredsEvents(a, e)
    case 13 => ExecEvents(a, e)
  }

  // ------------------------------------------------- the plan says the same

  /** The events after `t` carry the answers given from there on. */
  predicate Answered(answers: Answers, t: seq<Event>, e: seq<Event>) {
    forall i :: 0 <= i < |e| ==> e[i].rc == answers(|t| + i)
  }

  /** Playing these acts to their end gives the events of this description, wherever it
      starts. */
  ghost predicate Tells(acts: seq<Act>, answers: Answers, one: seq<Event> -> bool) {
    forall t, e :: Answered(answers, t, e) ==> (Play(acts, answers, t) == (t + e, true) <==> one(e))
  }

  lemma {:induction false} PlayedEvents(plan: seq<Act>, answers: Answers, t: seq<Event>) returns (e: seq<Event>)
    requires Play(plan, answers, t).1
    ensures Play(plan, answers, t).0 == t + e && Answered(answers, t, e)
    decreases |plan|
  {
    if plan == [] {
      e := [];
    } else {
      var u := Perform(plan[0], answers, t).0;
      var f := PlayedEvents(plan[1..], answers, u);
      e := u[|t|..] + f;
      assert u == t + u[|t|..];
      assert t + e == u + f;
    }
  }

  lemma {:induction false} OneAct(a: Act, answers: Answers)
    requires a.Act?
    ensures Tells([a], answers, e => ActEvents(a, e))
  {
    hide Play;
    forall t, e | Answered(answers, t, e)
      ensures Play([a], answers, t) == (t + e, true) <==> ActEvents(a, e)
    {
      PlayOne(a, answers, t);
      var first := Event(a.call, answers(|t|));
      var f := match a.reaction
        case Ignore => [first]
        case Fatal => [first]
        case OnFailure(c) => if first.rc == 0 then [first] else [first, Event(c, answers(|t| + 1))]
        case OnSuccess(c) => if first.rc != 0 then [first] else [first, Event(c, answers(|t| + 1))];
      assert Perform(a, answers, t).1 ==> Perform(a, answers, t).0 == t + f;
      SameTail(t, e, f);
    }
  }

  lemma SameTail(t: seq<Event>, e: seq<Event>, f: seq<Event>)
    ensures t + e == t + f <==> e == f
  {
    assert (t + e)[|t|..] == e && (t + f)[|t|..] == f;
  }

  ghost predicate InTwo(f: seq<Event> -> bool, g: seq<Event> -> bool, e: seq<Event>) {
    exists k: nat :: k <= |e| && f(e[..k]) && g(e[k..])
  }

  lemma TwoParts(
    p: seq<Act>, q: seq<Act>, answers: Answers, f: seq<Event> -> bool, g: seq<Event> -> bool,
    t: seq<Event>, e: seq<Event>)
    requires Tells(p, answers, f) && Tells(q, answers, g) && Answered(answers, t, e)
    ensures Play(p + q, answers, t) == (t + e, true) <==> InTwo(f, g, e)
  {
    hide Play, Tells, Answered;
    if Play(p + q, answers, t) == (t + e, true) {
      Parted(p, q, answers, f, g, t, e);
    }
    if InTwo(f, g, e) {
      var k: nat :| k <= |e| && f(e[..k]) && g(e[k..]);
      assert e == e[..k] + e[k..];
      Joined(p, q, answers, f, g, t, e[..k], e[k..]);
    }
  }

  lemma Joined(
    p: seq<Act>, q: seq<Act>, answers: Answers, f: seq<Event> -> bool, g: seq<Event> -> bool,
    t: seq<Event>, d: seq<Event>, c: seq<Event>)
    requires Tells(p, answers, f) && Tells(q, answers, g) && Answered(answers, t, d + c)
    requires f(d) && g(c)
    ensures Play(p + q, answers, t) == (t + (d + c), true)
  {
    hide Play, Tells, Answered;
    AnsweredParts(answers, t, d, c);
    Told(p, answers, f, t, d);
    Told(q, answers, g, t + d, c);
    PlayConcat(p, q, answers, t);
    assert t + d + c == t + (d + c);
  }

  lemma AnsweredParts(answers: Answers, t: seq<Event>, d: seq<Event>, c: seq<Event>)
    requires Answered(answers, t, d + c)
    ensures Answered(answers, t, d) && Answered(answers, t + d, c)
  {
    forall i | 0 <= i < |d|
      ensures d[i].rc == answers(|t| + i)
    {
      assert (d + c)[i] == d[i];
    }
    forall i | 0 <= i < |c|
      ensures c[i].rc == answers(|t + d| + i)
    {
      assert (d + c)[|d| + i] == c[i];
    }
  }

  lemma Parted(
    p: seq<Act>, q: seq<Act>, answers: Answers, f: seq<Event> -> bool, g: seq<Event> -> bool,
    t: seq<Event>, e: seq<Event>)
    requires Tells(p, answers, f) && Tells(q, answers, g)
    requires Play(p + q, answers, t) == (t + e, true)
    ensures InTwo(f, g, e)
  {
    hide Play, Tells;
    PlayConcat(p, q, answers, t);
    var d := PlayedEvents(p, answers, t);
    var c := PlayedEvents(q, answers, t + d);
    assert f(d) by { Told(p, answers, f, t, d); }
    assert g(c) by { Told(q, answers, g, t + d, c); }
    assert t + d + c == t + (d + c);
    SameTail(t, e, d + c);
    assert e[..|d|] == d && e[|d|..] == c;
  }

  lemma Told(p: seq<Act>, answers: Answers, f: seq<Event> -> bool, t: seq<Event>, d: seq<Event>)
    requires Tells(p, answers, f) && Answered(answers, t, d)
    ensures Play(p, answers, t) == (t + d, true) <==> f(d)
  {
  }

  function Of<T>(one: (T, seq<Event>) -> bool, x: T): seq<Event> -> bool {
    e => one(x, e)
  }

  lemma {:induction false} TellsSeries<T(!new)>(
    acts: T -> seq<Act>, items: seq<T>, answers: Answers, one: (T, seq<Event>) -> bool)
    requires forall x: T :: Tells(acts(x), answers, Of(one, x))
    ensures Tells(Each(acts, items), answers, e => Series(items, one, e))
  {
    hide Play;
    forall t, e | Answered(answers, t, e)
      ensures Play(Each(acts, items), answers, t) == (t + e, true) <==> Series(items, one, e)
    {
      PlayNone(answers);
      if items == [] {
        SameTail(t, e, []);
        assert t + [] == t;
      } else {
        EachSplit(acts, items, 1);
        assert items[..1] == [items[0]];
        TellsSeries(acts, items[1..], answers, one);
        OnlyOne(acts, items[0]);
        TwoParts(acts(items[0]), Each(acts, items[1..]), answers, Of(one, items[0]),
          e => Series(items[1..], one, e), t, e);
      }
    }
  }

  lemma OnlyOne<T>(acts: T -> seq<Act>, x: T)
    ensures Each(acts, [x]) == acts(x)
  {
    assert [x][..0] == [];
    assert Each(acts, []) == [];
  }

  predicate ActEvents(a: Act, e: seq<Event>)
    requires a.Act?
  {
    match a.reaction
    case Ignore => Tried(e, a.call)
    case Fatal => Succeeded(e, a.call)
    case OnFailure(c) =>
      |e| == (if e != [] && e[0].rc == 0 then 1 else 2) && e[0].call == a.call && (|e| == 2 ==> e[1].call == c)
    case OnSuccess(c) =>
      |e| == (if e != [] && e[0].rc == 0 then 2 else 1) && e[0].call == a.call && (|e| == 2 ==> e[1].call == c)
  }

  lemma Literals()
    ensures ROOT == C("/") && DEV == C("/dev") && TMPFS == C("tmpfs") && DevNull() == C("/dev/null")
  {
  }

  lemma NoActs(answers: Answers)
    ensures Tells([], answers, e => e == [])
  {
    forall t, e: seq<Event> | Answered(answers, t, e)
      ensures Play([], answers, t) == (t + e, true) <==> e == []
    {
      assert t + [] == t;
      SameTail(t, e, []);
    }
  }

  /** Another description of the same events. */
  lemma Alike(acts: seq<Act>, answers: Answers, f: seq<Event> -> bool, g: seq<Event> -> bool)
    requires Tells(acts, answers, f) && forall e :: f(e) <==> g(e)
    ensures Tells(acts, answers, g)
  {
  }

  lemma ItemAlike<T>(
    acts: seq<Act>, answers: Answers, f: seq<Event> -> bool, one: (T, seq<Event>) -> bool, x: T)
    requires Tells(acts, answers, f) && forall e :: f(e) <==> one(x, e)
    ensures Tells(acts, answers, Of(one, x))
  {
    assert forall e :: f(e) <==> Of(one, x)(e);
  }

  lemma MountTells(m: MountSpec, answers: Answers)
    ensures Tells(MountActs(m), answers, Of(MountEvents, m))
  {
    hide Play, Tells;
    var mkdir, mount := Act(Mkdir(m.destination), Ignore), Act(MountCall(m), Ignore);
    NoActs(answers);
    OneAct(mkdir, answers);
    OneAct(mount, answers);
    if |m.destination| <= 1 {
      ItemAlike([], answers, e => e == [], MountEvents, m);
    } else if |m.fsType| <= 1 {
      assert MountActs(m) == [mount];
      ItemAlike([mount], answers, e => ActEvents(mount, e), MountEvents, m);
    } else {
      TwoActs(mkdir, mount, answers);
      assert MountActs(m) == [mkdir, mount];
      ItemAlike([mkdir, mount], answers, e => PairEvents(mkdir, mount, e), MountEvents, m);
    }
  }

  /** Two calls, of which neither leads to another. */
  predicate PairEvents(a: Act, b: Act, e: seq<Event>)
    requires a.Act? && b.Act?
  {
    |e| == 2 && ActEvents(a, e[..1]) && ActEvents(b, e[1..])
  }

  lemma TwoActs(a: Act, b: Act, answers: Answers)
    requires a.Act? && b.Act? && a.reaction.Ignore? && (b.reaction.Ignore? || b.reaction.Fatal?)
    ensures Tells([a, b], answers, e => PairEvents(a, b, e))
  {
    hide Play;
    forall t, e | Answered(answers, t, e)
      ensures Play([a, b], answers, t) == (t + e, true) <==> PairEvents(a, b, e)
    {
      OneAct(a, answers);
      OneAct(b, answers);
      assert [a, b] == [a] + [b];
      TwoParts([a], [b], answers, d => ActEvents(a, d), d => ActEvents(b, d), t, e);
      assert PairEvents(a, b, e) <==> InTwo(d => ActEvents(a, d), d => ActEvents(b, d), e);
    }
  }

  lemma {:induction false} SeriesTried(calls: seq<Call>, e: seq<Event>)
    ensures Series(calls, (c, d) => Tried(d, c), e) <==>
      |e| == |calls| && forall i :: 0 <= i < |e| ==> e[i].call == calls[i]
    decreases |calls|
  {
    var one: (Call, seq<Event>) -> bool := (c, d) => Tried(d, c);
    if calls != [] {
      if e != [] {
        SeriesTried(calls[1..], e[1..]);
        assert forall i :: 0 < i < |e| ==> e[i] == e[1..][i - 1];
        assert e[..1] == [e[0]];
      }
      if Series(calls, one, e) {
        var k: nat :| k <= |e| && one(calls[0], e[..k]) && Series(calls[1..], one, e[k..]);
      }
    }
  }

  lemma DevicesListed(e: seq<Event>)
    ensures (|e| == 11 && NodeEvents(e[..6]) && LinkEvents(e[6..])) <==>
      |e| == |DefaultDevices()| && forall i :: 0 <= i < |e| ==> e[i].call == DefaultDevices()[i]
  {
    hide C;
    if |e| == 11 {
      assert forall i :: 0 <= i < 6 ==> e[..6][i] == e[i];
      assert forall i :: 0 <= i < 5 ==> e[6..][i] == e[6 + i];
    }
  }

  lemma DevicesTell(mounts: seq<MountSpec>, answers: Answers)
    ensures Tells(DeviceActs(mounts), answers, e => DeviceEvents(mounts, e))
  {
    hide Play, Tells, Series, Each, DefaultDevices, NodeEvents, LinkEvents;
    Literals();
    NoActs(answers);
    if exists i :: 0 <= i < |mounts| && FreshDev(mounts[i]) {
      var one: (Call, seq<Event>) -> bool := (c, d) => Tried(d, c);
      forall c: Call
        ensures Tells(CallAct(c), answers, Of(one, c))
      {
        OneAct(Act(c, Ignore), answers);
        ItemAlike([Act(c, Ignore)], answers, e => ActEvents(Act(c, Ignore), e), one, c);
      }
      TellsSeries(CallAct, DefaultDevices(), answers, one);
      forall e
        ensures Series(DefaultDevices(), one, e) <==> DeviceEvents(mounts, e)
      {
        SeriesTried(DefaultDevices(), e);
        DevicesListed(e);
        var i :| 0 <= i < |mounts| && FreshDev(mounts[i]);
        assert OwnDev(mounts[i]);
      }
      Alike(DeviceActs(mounts), answers, e => Series(DefaultDevices(), one, e), e => DeviceEvents(mounts, e));
    } else {
      assert forall i :: 0 <= i < |mounts| ==> !OwnDev(mounts[i]) by {
        assert forall i :: 0 <= i < |mounts| ==> !FreshDev(mounts[i]);
      }
      Alike([], answers, e => e == [], e => DeviceEvents(mounts, e));
    }
  }

  /** The only way to write an entry as an assignment. */
  lemma SplitAssigns(entry: bytes, name: bytes, value: bytes)
    ensures (0x3D !in name && Assigns(entry, name, value)) <==>
      SysctlWrites.Split(entry) == Some((SysctlWrites.PREFIX + name + [0], value))
  {
    if 0x3D !in name && Assigns(entry, name, value) {
      AssignmentSplits(entry, name, value);
    }
    if SysctlWrites.Split(entry) == Some((SysctlWrites.PREFIX + name + [0], value)) {
      SplitIsAssignment(entry, name, value);
    }
  }

  lemma AssignmentSplits(entry: bytes, name: bytes, value: bytes)
    requires 0x3D !in name && Assigns(entry, name, value)
    ensures SysctlWrites.Split(entry) == Some((SysctlWrites.PREFIX + name + [0], value))
  {
    var eq := Find(entry, 0x3D, 0);
    assert entry[|name|] == 0x3D;
    assert forall i :: 0 <= i < |name| ==> entry[i] == name[i];
    assert eq == |name|;
    assert entry[..eq] == name;
    var end := if entry[|entry| - 1] == 0 then |entry| - 1 else |entry|;
    assert entry[eq + 1..end] == value;
  }

  lemma SplitIsAssignment(entry: bytes, name: bytes, value: bytes)
    requires SysctlWrites.Split(entry) == Some((SysctlWrites.PREFIX + name + [0], value))
    ensures 0x3D !in name && Assigns(entry, name, value)
  {
    var eq := Find(entry, 0x3D, 0);
    SameName(name, entry[..eq]);
    var end := if entry[|entry| - 1] == 0 then |entry| - 1 else |entry|;
    assert entry == entry[..eq] + [0x3D] + entry[eq + 1..end] + entry[end..];
    assert value == entry[eq + 1..end];
  }

  lemma SameName(x: bytes, y: bytes)
    requires SysctlWrites.PREFIX + x + [0] == SysctlWrites.PREFIX + y + [0]
    ensures x == y
  {
    var (s, t) := (SysctlWrites.PREFIX + x + [0], SysctlWrites.PREFIX + y + [0]);
    assert s[10..|s| - 1] == x && t[10..|t| - 1] == y;
  }

  lemma SysctlTells(entry: bytes, answers: Answers)
    ensures Tells(SysctlActs(entry), answers, Of(SysctlEvents, entry))
  {
    hide Play, Tells;
    NoActs(answers);
    assert SysctlWrites.PREFIX == Ascii("/proc/sys/");
    var w := SysctlWrites.Split(entry);
    if w.None? {
      ItemAlike([], answers, e => e == [], SysctlEvents, entry);
    } else {
      var act := Act(WriteFile(w.value.0, w.value.1), Ignore);
      OneAct(act, answers);
      forall e: seq<Event>
        ensures ActEvents(act, e) <==> SysctlEvents(entry, e)
      {
        if ActEvents(act, e) {
          var name := entry[..Find(entry, 0x3D, 0)];
          SplitAssigns(entry, name, w.value.1);
          assert WritesTo(e[0].call, name);
        }
        if SysctlEvents(entry, e) {
          var name: bytes :| WritesTo(e[0].call, name) && Assigns(entry, name, e[0].call.data);
          SplitAssigns(entry, name, e[0].call.data);
        }
      }
      ItemAlike([act], answers, e => ActEvents(act, e), SysctlEvents, entry);
    }
  }

  lemma MaskTells(p: bytes, answers: Answers)
    ensures Tells(MaskActs(p), answers, Of(MaskEvents, p))
  {
    hide Play, Tells, DevNull;
    Literals();
    NoActs(answers);
    if |p| <= 1 {
      ItemAlike([], answers, e => e == [], MaskEvents, p);
    } else {
      var act := Act(MaskCall(p), OnFailure(MaskElseCall(p)));
      OneAct(act, answers);
      ItemAlike([act], answers, e => ActEvents(act, e), MaskEvents, p);
    }
  }

  lemma ReadonlyTells(p: bytes, answers: Answers)
    ensures Tells(ReadonlyActs(p), answers, Of(ReadonlyEvents, p))
  {
    hide Play, Tells;
    NoActs(answers);
    if |p| <= 1 {
      ItemAlike([], answers, e => e == [], ReadonlyEvents, p);
    } else {
      var act := Act(SelfBindCall(p), OnSuccess(ReadonlyCall(p)));
      OneAct(act, answers);
      ItemAlike([act], answers, e => ActEvents(act, e), ReadonlyEvents, p);
    }
  }

  lemma LimitsTell(a: ContainerArgs, answers: Answers)
    ensures Tells(LimitActs(a.rlimits, a.oomScoreAdj), answers, e => LimitEvents(a, e))
  {
    hide Play, Series, Each;
    NoActs(answers);
    forall r: Rlimit
      ensures Tells(RlimitActs(r), answers, Of(RlimitEvents, r))
    {
      OneAct(Act(SetRlimit(r), Ignore), answers);
      ItemAlike(RlimitActs(r), answers, e => ActEvents(Act(SetRlimit(r), Ignore), e), RlimitEvents, r);
    }
    TellsSeries(RlimitActs, a.rlimits, answers, RlimitEvents);
    var oom := if a.oomScoreAdj.Some? then [Act(SetOomScore(a.oomScoreAdj.value), Ignore)] else [];
    assert Tells(oom, answers, e => OomEvents(a.oomScoreAdj, e)) by {
      if a.oomScoreAdj.Some? {
        OneAct(oom[0], answers);
        Alike(oom, answers, e => ActEvents(oom[0], e), e => OomEvents(a.oomScoreAdj, e));
      } else {
        Alike([], answers, e => e == [], e => OomEvents(a.oomScoreAdj, e));
      }
    }
    var f: seq<Event> -> bool := e => Series(a.rlimits, RlimitEvents, e);
    var g: seq<Event> -> bool := e => OomEvents(a.oomScoreAdj, e);
    forall t, e | Answered(answers, t, e)
      ensures Play(LimitActs(a.rlimits, a.oomScoreAdj), answers, t) == (t + e, true) <==> LimitEvents(a, e)
    {
      TwoParts(Each(RlimitActs, a.rlimits), oom, answers, f, g, t, e);
      assert InTwo(f, g, e) <==> LimitEvents(a, e);
    }
  }

  lemma StageTells(a: ContainerArgs, k: nat, answers: Answers)
    requires k < 14
    ensures Tells(Stages(a)[k], answers, e => StageEvents(a, k, e))
  {
    hide Tells, Stages, Each, Series, LimitEvents, SysctlEvents, DeviceEvents, Play;
    if k < 5 {
      FirstTell(a, k, answers);
    } else if k < 11 {
      ListsTell(a, k, answers);
    } else {
      LastTell(a, k, answers);
    }
  }

  lemma FirstTell(a: ContainerArgs, k: nat, answers: Answers)
    requires k < 5
    ensures Tells(Stages(a)[k], answers, e => StageEvents(a, k, e))
  {
    hide Tells, Stages, Play, C, ROOT;
    StagesBegin(a);
    Literals();
    NoActs(answers);
    var private, root := Act(PRIVATE, Ignore), Act(BindRoot(a), Fatal);
    match k {
      case 0 =>
        if |a.hostname| > 1 {
          var act := Act(HostCall(a), Ignore);
          OneAct(act, answers);
          Alike([act], answers, e => ActEvents(act, e), e => StageEvents(a, 0, e));
        } else {
          Alike([], answers, e => e == [], e => StageEvents(a, 0, e));
        }
      case 1 =>
        OneAct(Act(UsernsCreds, Fatal), answers);
        if a.userns {
          Alike(Stages(a)[1], answers, e => ActEvents(Act(UsernsCreds, Fatal), e), e => StageEvents(a, 1, e));
        } else {
          Alike([], answers, e => e == [], e => StageEvents(a, 1, e));
        }
      case 2 =>
        TwoActs(private, root, answers);
        if a.readonlyRootfs {
          Alike([private, root], answers, e => PairEvents(private, root, e), e => StageEvents(a, 2, e));
        } else {
          Alike([], answers, e => e == [], e => StageEvents(a, 2, e));
        }
      case 3 =>
        var act := Act(Chroot(a.rootfs), Fatal);
        OneAct(act, answers);
        Alike([act], answers, e => ActEvents(act, e), e => StageEvents(a, 3, e));
      case 4 =>
        OneAct(private, answers);
        Alike([private], answers, e => ActEvents(private, e), e => StageEvents(a, 4, e));
    }
  }

  lemma ListsTell(a: ContainerArgs, k: nat, answers: Answers)
    requires 5 <= k < 11
    ensures Tells(Stages(a)[k], answers, e => StageEvents(a, k, e))
  {
    hide Tells, Stages, Play, Each, Series, LimitEvents, DeviceEvents, SysctlEvents, MountEvents, MaskEvents;
    hide ReadonlyEvents;
    StagesMiddle(a);
    var acts := Stages(a)[k];
    match k {
      case 5 =>
        forall m: MountSpec { MountTells(m, answers); }
        TellsSeries(MountActs, a.mounts, answers, MountEvents);
        Alike(acts, answers, e => Series(a.mounts, MountEvents, e), e => StageEvents(a, k, e));
      case 6 =>
        DevicesTell(a.mounts, answers);
        Alike(acts, answers, e => DeviceEvents(a.mounts, e), e => StageEvents(a, k, e));
      case 7 =>
        forall s: bytes { SysctlTells(s, answers); }
        TellsSeries(SysctlActs, a.sysctls, answers, SysctlEvents);
        Alike(acts, answers, e => Series(a.sysctls, SysctlEvents, e), e => StageEvents(a, k, e));
      case 8 =>
        forall p: bytes { MaskTells(p, answers); }
        TellsSeries(MaskActs, a.masked, answers, MaskEvents);
        Alike(acts, answers, e => Series(a.masked, MaskEvents, e), e => StageEvents(a, k, e));
      case 9 =>
        forall p: bytes { ReadonlyTells(p, answers); }
        TellsSeries(ReadonlyActs, a.readonly, answers, ReadonlyEvents);
        Alike(acts, answers, e => Series(a.readonly, ReadonlyEvents, e), e => StageEvents(a, k, e));
      case 10 =>
        LimitsTell(a, answers);
        Alike(acts, answers, e => LimitEvents(a, e), e => StageEvents(a, k, e));
    }
  }

  lemma DefaultEnvIs()
    ensures forall envp :: IsDefaultEnv(envp) <==> envp == DefaultEnv()
  {
    hide C;
  }

  lemma LastTell(a: ContainerArgs, k: nat, answers: Answers)
    requires 11 <= k < 14
    ensures Tells(Stages(a)[k], answers, e => StageEvents(a, k, e))
  {
    DefaultEnvIs();
    hide IsDefaultEnv, DefaultEnv;
    hide Tells, Stages, Play, C, ROOT;
    StagesEnd(a);
    Literals();
    NoActs(answers);
    match k {
      case 11 =>
        OneAct(Act(SEAL, Fatal), answers);
        if a.readonlyRootfs {
          Alike([Act(SEAL, Fatal)], answers, e => ActEvents(Act(SEAL, Fatal), e), e => StageEvents(a, 11, e));
        } else {
          Alike([], answers, e => e == [], e => StageEvents(a, 11, e));
        }
      case 12 =>
        var act := Act(CredsCall(a), Ignore);
        OneAct(act, answers);
        Alike([act], answers, e => ActEvents(act, e), e => StageEvents(a, 12, e));
      case 13 =>
        if a.argv == [] {
          HaltTells(answers);
          Alike([Halt(-22)], answers, e => false, e => StageEvents(a, 13, e));
        } else {
          var act := Act(ExecCall(a), Fatal);
          OneAct(act, answers);
          Alike([act], answers, e => ActEvents(act, e), e => StageEvents(a, 13, e));
        }
    }
  }

  lemma HaltTells(answers: Answers)
    ensures Tells([Halt(-22)], answers, e => false)
  {
    forall t {
      PlayOne(Halt(-22), answers, t);
    }
  }

  // ------------------------------------------------------------ main result

  function Flat(parts: seq<seq<Event>>): seq<Event> {
    if parts == [] then [] else Flat(parts[..|parts| - 1]) + parts[|parts| - 1]
  }

  /** The first `k` stages, one after the other. */
  ghost predicate Staged(a: ContainerArgs, parts: seq<seq<Event>>) {
    |parts| <= 14 && forall k :: 0 <= k < |parts| ==> StageEvents(a, k, parts[k])
  }

  ghost predicate Effects(a: ContainerArgs, t: seq<Event>) {
    exists parts :: |parts| == 14 && Staged(a, parts) && Flat(parts) == t
  }

  lemma {:induction false} ToParts(a: ContainerArgs, k: nat, answers: Answers) returns (parts: seq<seq<Event>>)
    requires k <= 14 && Upto(Stages(a), k, answers).1
    ensures |parts| == k && Staged(a, parts) && Flat(parts) == Upto(Stages(a), k, answers).0
    ensures Answered(answers, [], Flat(parts))
  {
    hide Play, Stages, Join, Upto, StageEvents, Tells;
    if k == 0 {
      parts := [];
      StageNone(Stages(a), answers);
    } else {
      StageDone(Stages(a), k - 1, answers);
      parts := ToParts(a, k - 1, answers);
      var t := Flat(parts);
      var e := PlayedEvents(Stages(a)[k - 1], answers, t);
      StageTells(a, k - 1, answers);
      Told(Stages(a)[k - 1], answers, d => StageEvents(a, k - 1, d), t, e);
      assert (parts + [e])[..k - 1] == parts;
      parts := parts + [e];
    }
  }

  lemma {:induction false} FromParts(a: ContainerArgs, parts: seq<seq<Event>>, answers: Answers)
    requires Staged(a, parts) && Answered(answers, [], Flat(parts))
    ensures Upto(Stages(a), |parts|, answers) == (Flat(parts), true)
    decreases |parts|
  {
    hide Play, Stages, Join, Upto, StageEvents, Tells;
    if parts == [] {
      StageNone(Stages(a), answers);
    } else {
      var k := |parts| - 1;
      var t := Flat(parts[..k]);
      assert [] + (t + parts[k]) == t + parts[k] && [] + t == t;
      AnsweredParts(answers, [], t, parts[k]);
      FromParts(a, parts[..k], answers);
      StageTells(a, k, answers);
      Told(Stages(a)[k], answers, d => StageEvents(a, k, d), t, parts[k]);
      StageDone(Stages(a), k, answers);
    }
  }

  /** The traces of the inits that execute are these and no others: an init whose calls
      are answered so executes with the trace `t` if and only if `t` is what is described
      above with these answers. */
  lemma ExecutedIff(a: ContainerArgs, answers: Answers, t: seq<Event>)
    ensures Executed(Trace(a, false, answers)) && Trace(a, false, answers) == t <==>
      Effects(a, t) && Answered(answers, [], t)
  {
    hide Play, Stages, Join, Upto, StageEvents, Executed, Staged;
    UptoAll(Stages(a), answers);
    if Executed(Trace(a, false, answers)) && Trace(a, false, answers) == t {
      ExecutedIsPlayed(a, answers);
      var parts := ToParts(a, 14, answers);
    }
    if Effects(a, t) && Answered(answers, [], t) {
      var parts :| |parts| == 14 && Staged(a, parts) && Flat(parts) == t;
      FromParts(a, parts, answers);
      PlayedExecs(a, answers);
    }
  }

  lemma ExecutedIsPlayed(a: ContainerArgs, answers: Answers)
    requires Executed(Trace(a, false, answers))
    ensures Play(Join(Stages(a)), answers, []).1
  {
    hide Play, Stages, Join;
    PlanEnds(a, false, answers);
  }

  /** The program is the one asked for: the last call has the first 32 arguments and
      environment entries, the call before it the asked-for identity. */
  lemma LastCalls(a: ContainerArgs, answers: Answers)
    requires Executed(Trace(a, false, answers))
    ensures var t := Trace(a, false, answers);
      && |t| >= 2 && t[|t| - 2].call.ApplyCreds? && t[|t| - 1].call.Exec?
      && var (creds, exec) := (t[|t| - 2].call, t[|t| - 1].call);
      && creds.caps == a.caps && creds.uid == a.uid && creds.gid == a.gid && creds.noNewPrivs == a.noNewPrivs
      && exec.argv == (if |a.argv| <= 32 then a.argv else a.argv[..32])
      && (a.envp == [] ==> IsDefaultEnv(exec.envp))
      && (a.envp != [] ==> exec.envp == (if |a.envp| <= 32 then a.envp else a.envp[..32]))
  {
    hide Play, Trace, Executed, StageEvents;
    var t := Trace(a, false, answers);
    ExecutedIff(a, answers, t);
    var parts :| |parts| == 14 && Staged(a, parts) && Flat(parts) == t;
    assert parts[..13][12] == parts[12] && Flat(parts[..13]) == Flat(parts[..13][..12]) + parts[12];
    LastParts(a, parts[12], parts[13]);
    assert t == Flat(parts[..13][..12]) + parts[12] + parts[13];
  }

  lemma LastParts(a: ContainerArgs, creds: seq<Event>, exec: seq<Event>)
    requires StageEvents(a, 12, creds) && StageEvents(a, 13, exec)
    ensures CredsEvents(a, creds) && ExecEvents(a, exec)
  {
  }

  // ------------------------------------------------------- every other end

  /** A fatal call that failed, and the end of the init with its error. */
  predicate Failed(e: seq<Event>, c: Call) {
    |e| == 2 && e[0].call == c && e[0].rc != 0 && e[1] == Event(Terminate(e[0].rc), 0)
  }

  /** How the init stops in the `k`-th stage. */
  predicate Stops(a: ContainerArgs, k: nat, e: seq<Event>) {
    match k
    case 1 => a.userns && Failed(e, UsernsCreds)
    case 2 =>
      && a.readonlyRootfs && |e| == 3 && PrivateEvent(e[0])
      && Failed(e[1..], Mount(Some(a.rootfs), a.rootfs, None, 4096 + 16384))
    case 3 => Failed(e, Chroot(a.rootfs))
    case 11 => a.readonlyRootfs && Failed(e, Mount(None, C("/"), None, 32 + 4096 + 1))
    case 13 => if a.argv == [] then e == [Event(Terminate(-22), 0)] else FailedExec(a, e)
    case _ => false
  }

  predicate FailedExec(a: ContainerArgs, e: seq<Event>) {
    && |e| == 2 && e[0].rc != 0 && ExecEvents(a, [Event(e[0].call, 0)])
    && e[1] == Event(Terminate(e[0].rc), 0)
  }

  /** An init that was started and does not execute did the stages before one of the five
      that can fail, and stopped there. */
  lemma StoppedAt(a: ContainerArgs, answers: Answers) returns (k: nat, parts: seq<seq<Event>>, e: seq<Event>)
    requires !Executed(Trace(a, false, answers))
    ensures |parts| == k < 14 && Staged(a, parts) && Stops(a, k, e)
    ensures Trace(a, false, answers) == Flat(parts) + e
  {
    hide Play, Stages, Join, Upto, Executed, Staged, Stops;
    var s := Stages(a);
    UptoAll(s, answers);
    if Upto(s, 14, answers).1 {
      PlayedExecs(a, answers);
      assert false;
    }
    k := FirstStop(s, 14, answers);
    parts := ToParts(a, k, answers);
    StageDone(s, k, answers);
    e := StageStops(a, k, answers, Flat(parts));
  }

  lemma {:induction false} FirstStop(s: seq<seq<Act>>, n: nat, answers: Answers) returns (k: nat)
    requires n <= |s| && !Upto(s, n, answers).1
    ensures k < n && Upto(s, k, answers).1 && !Upto(s, k + 1, answers).1
    decreases n
  {
    hide Play, Join, Upto;
    if n == 0 {
      StageNone(s, answers);
      assert false;
    } else if Upto(s, n - 1, answers).1 {
      k := n - 1;
    } else {
      k := FirstStop(s, n - 1, answers);
    }
  }

  lemma StageStops(a: ContainerArgs, k: nat, answers: Answers, t: seq<Event>) returns (e: seq<Event>)
    requires k < 14 && !Play(Stages(a)[k], answers, t).1
    ensures Stops(a, k, e) && Play(Stages(a)[k], answers, t).0 == t + e
  {
    hide Play, Stages, Stops, Each;
    if k < 5 {
      e := FirstStops(a, k, answers, t);
    } else if k < 11 {
      ListPlain(a, k);
      PlainPlayed(Stages(a)[k], answers, t);
      assert false;
    } else {
      e := LastStops(a, k, answers, t);
    }
  }

  /** One fatal call that stopped the init. */
  lemma FatalStops(c: Call, answers: Answers, t: seq<Event>) returns (e: seq<Event>)
    ensures !Play([Act(c, Fatal)], answers, t).1 ==>
      Failed(e, c) && Play([Act(c, Fatal)], answers, t).0 == t + e
  {
    hide Play;
    PlayOne(Act(c, Fatal), answers, t);
    var rc := answers(|t|);
    e := [Event(c, rc), Event(Terminate(rc), 0)];
  }

  lemma FirstStops(a: ContainerArgs, k: nat, answers: Answers, t: seq<Event>) returns (e: seq<Event>)
    requires k < 5 && !Play(Stages(a)[k], answers, t).1
    ensures Stops(a, k, e) && Play(Stages(a)[k], answers, t).0 == t + e
  {
    hide Play, Stages, C, ROOT;
    Literals();
    PlayNone(answers);
    StagesBegin(a);
    match k {
      case 0 => PlayOne(Stages(a)[0][0], answers, t);
      case 1 => e := FatalStops(UsernsCreds, answers, t);
      case 2 =>
        PlayTwo(Act(PRIVATE, Ignore), Act(BindRoot(a), Fatal), answers, t);
        e := RootStops(BindRoot(a), answers, t);
      case 3 => e := FatalStops(Chroot(a.rootfs), answers, t);
      case 4 => PlayOne(Act(PRIVATE, Ignore), answers, t);
    }
  }

  lemma RootStops(bind: Call, answers: Answers, t: seq<Event>) returns (e: seq<Event>)
    requires !Perform(Act(bind, Fatal), answers, Perform(Act(PRIVATE, Ignore), answers, t).0).1
    ensures |e| == 3 && e[0].call == PRIVATE && Failed(e[1..], bind)
    ensures Perform(Act(bind, Fatal), answers, Perform(Act(PRIVATE, Ignore), answers, t).0).0 == t + e
  {
    var rc := answers(|t| + 1);
    e := [Event(PRIVATE, answers(|t|)), Event(bind, rc), Event(Terminate(rc), 0)];
  }

  lemma LastStops(a: ContainerArgs, k: nat, answers: Answers, t: seq<Event>) returns (e: seq<Event>)
    requires 11 <= k < 14 && !Play(Stages(a)[k], answers, t).1
    ensures Stops(a, k, e) && Play(Stages(a)[k], answers, t).0 == t + e
  {
    DefaultEnvIs();
    hide Play, Stages, C, ROOT, IsDefaultEnv, DefaultEnv;
    Literals();
    PlayNone(answers);
    StagesEnd(a);
    match k {
      case 11 => e := FatalStops(SEAL, answers, t);
      case 12 => PlayOne(Act(CredsCall(a), Ignore), answers, t);
      case 13 =>
        if a.argv == [] {
          PlayOne(Halt(-22), answers, t);
          e := [Event(Terminate(-22), 0)];
        } else {
          e := FatalStops(ExecCall(a), answers, t);
        }
    }
  }

  lemma {:induction false} PlainPlayed(plan: seq<Act>, answers: Answers, t: seq<Event>)
    requires Plain(plan)
    ensures Play(plan, answers, t).1
    decreases |plan|
  {
    if plan != [] {
      assert plan[0] in plan;
      PlainPlayed(plan[1..], answers, Perform(plan[0], answers, t).0);
    }
  }

  lemma ListPlain(a: ContainerArgs, k: nat)
    requires 5 <= k < 11
    ensures Plain(Stages(a)[k])
  {
    hide Stages, Each;
    StagesMiddle(a);
    EachPlain(MountActs, a.mounts);
    EachPlain(CallAct, DefaultDevices());
    EachPlain(SysctlActs, a.sysctls);
    EachPlain(MaskActs, a.masked);
    EachPlain(ReadonlyActs, a.readonly);
    EachPlain(RlimitActs, a.rlimits);
  }
}
