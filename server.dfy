/** The development server of `server.go`, as sequential abstractions: the
    set of live-reload clients with their one-slot channels, the file server
    that injects the reload script into `index.html`, the watch loop that
    filters events and debounces rebuilds, and the port-probing loop.
    Goroutines, locks, sockets and real time are not modelled: events come
    as a list stamped with their times, and the operating system's answers
    (is a path a directory, does a port accept a listener, does a build
    succeed) are inputs. */
module Server {
  import opened Wrappers
  import opened Strings

  // ---- Live-reload clients ----

  /** Every registered slot full, and no other change. */
  function Filled(clients: map<nat, bool>): (r: map<nat, bool>)
    ensures r.Keys == clients.Keys
    ensures forall ch :: ch in r ==> r[ch]
  {
    map ch | ch in clients :: true
  }

  /** Notifying twice is notifying once. */
  lemma FilledIdempotent(clients: map<nat, bool>)
    ensures Filled(Filled(clients)) == Filled(clients)
  {
  }

  const ReloadEvent := "data: reload\n\n"

  /** `n` reload events. */
  function Reloads(n: nat): (s: string)
    ensures |s| == n * |ReloadEvent|
  {
    if n == 0 then "" else Reloads(n - 1) + ReloadEvent
  }

  /** The position of the first `false`: when the request is cancelled. */
  function FirstDone(events: seq<bool>): (k: nat)
    requires false in events
    ensures k < |events| && !events[k] && forall j :: 0 <= j < k ==> events[j]
  {
    if !events[0] then 0 else FirstDone(events[1..]) + 1
  }

  /** The registered clients: each channel with whether its one slot is
      full. */
  class Hub {
    var clients: map<nat, bool>

    constructor ()
      ensures clients == map[]
    {
      clients := map[];
    }

    /** `notifyClients`: a non-blocking send to every channel, which fills
        an empty slot and leaves a full one as it is. */
    method NotifyClients()
      modifies this
      ensures clients == Filled(old(clients))
    {
      var pending := clients.Keys;
      while pending != {}
        invariant pending <= clients.Keys && clients.Keys == old(clients).Keys
        invariant forall ch :: ch in clients ==> clients[ch] == (ch !in pending || old(clients)[ch])
        decreases pending
      {
        var ch :| ch in pending;
        if !clients[ch] {
          clients := clients[ch := true];
        }
        pending := pending - {ch};
      }
    }

    /** `sseHandler` on a fresh channel `ch`. `events` says what each round
        of its loop receives: `true` a signal on `ch`, `false` the end of the
        request. */
    method SseHandler(ch: nat, flusher: bool, events: seq<bool>) returns (out: string)
      requires ch !in clients
      requires flusher ==> false in events
      modifies this
      ensures clients == old(clients)
      ensures out == if flusher then Reloads(FirstDone(events)) else ""
    {
      clients := clients[ch := false];
      out := "";
      if flusher {
        var i := 0;
        while events[i]
          invariant 0 <= i <= FirstDone(events) && out == Reloads(i)
          decreases FirstDone(events) - i
        {
          out := out + ReloadEvent;
          i := i + 1;
        }
      }
      clients := clients - {ch};
      assert clients == old(clients);
    }
  }

  // ---- The file server ----

  const LiveReloadScript := "<script>new EventSource(\"/_reload\").onmessage=()=>location.reload()</script>"

  /** The first `</body>` gets the reload script in front of it. */
  function Inject(page: string): string {
    ReplaceFirst(page, "</body>", LiveReloadScript + "\n  </body>")
  }

  /** A page without `</body>` is served unchanged; otherwise exactly the
      first `</body>` is replaced, and what precedes and follows it is
      kept. */
  lemma InjectFacts(page: string)
    ensures !Contains(page, "</body>") ==> Inject(page) == page
    ensures Contains(page, "</body>") ==>
      exists i :: OccursAt(page, "</body>", i) && (forall j :: 0 <= j < i ==> !OccursAt(page, "</body>", j)) &&
        Inject(page) == page[..i] + LiveReloadScript + "\n  </body>" + page[i + 7..]
  {
    if Contains(page, "</body>") {
      var i := Index(page, "</body>");
      assert OccursAt(page, "</body>", i);
    }
  }

  datatype Response = Page(body: string) | StaticFile(path: string)

  /** The handler of `fileServer`: `/` and `/index.html` are answered with
      the injected page when `index.html` can be read (`index` is its
      contents, or None), every other request by the static file server. */
  function Serve(path: string, index: Option<string>): Response {
    if (path == "/" || path == "/index.html") && index.Some? then Page(Inject(index.value))
    else StaticFile(path)
  }

  /** Only the two page paths are answered specially, and only when the
      page can be read. */
  lemma ServeIff(path: string, index: Option<string>)
    ensures Serve(path, index).Page? <==> (path == "/" || path == "/index.html") && index.Some?
    ensures Serve(path, index).StaticFile? ==> Serve(path, index).path == path
    ensures Serve(path, index).Page? ==> Serve(path, index).body == Inject(index.value)
  {
  }

  // ---- The watch loop ----

  /** The last element of a path with its trailing separators removed. */
  function LastElement(p: string): (r: string)
    ensures |r| <= |p| && '/' !in r
  {
    if p == [] || p[|p| - 1] == '/' then [] else LastElement(p[..|p| - 1]) + [p[|p| - 1]]
  }

  /** `filepath.Base` with `/` as separator. */
  function Base(path: string): string {
    if path == "" then "."
    else
      var p := TrimRight(path, c => c == '/');
      if p == "" then "/" else LastElement(p)
  }

  lemma {:induction false} LastElementJoin(dir: string, name: string)
    requires '/' !in name
    ensures LastElement(dir + "/" + name) == name
    decreases |name|
  {
    if name == [] {
      assert dir + "/" + name == dir + "/";
    } else {
      var init := name[..|name| - 1];
      assert (dir + "/" + name)[..|dir + "/" + name| - 1] == dir + "/" + init;
      LastElementJoin(dir, init);
    }
  }

  /** The base name of `dir/name` is `name`. */
  lemma BaseJoin(dir: string, name: string)
    requires name != "" && '/' !in name
    ensures Base(dir + "/" + name) == name
  {
    var s := dir + "/" + name;
    assert s[|s| - 1] == name[|name| - 1];
    assert TrimRight(s, c => c == '/') == s;
    LastElementJoin(dir, name);
  }

  datatype Event = Event(name: string, create: bool, at: int)

  /** The times of the events the loop acts on. */
  function Accepted(events: seq<Event>, ignored: set<string>): seq<int> {
    if events == [] then []
    else
      var e := events[|events| - 1];
      Accepted(events[..|events| - 1], ignored) + (if Base(e.name) in ignored then [] else [e.at])
  }

  /** The filter keeps at most every event; all of them, in order, when
      none is ignored; none when all are. */
  lemma {:induction false} AcceptedFilter(events: seq<Event>, ignored: set<string>)
    ensures |Accepted(events, ignored)| <= |events|
    ensures (forall k :: 0 <= k < |events| ==> Base(events[k].name) !in ignored) ==>
      Accepted(events, ignored) == seq(|events|, k requires 0 <= k < |events| => events[k].at)
    ensures (forall k :: 0 <= k < |events| ==> Base(events[k].name) in ignored) ==> Accepted(events, ignored) == []
  {
    if events != [] {
      var init := events[..|events| - 1];
      AcceptedFilter(init, ignored);
      assert forall k :: 0 <= k < |init| ==> init[k] == events[k];
    }
  }

  /** The files the build writes, whose changes the watch loop of
      `server.go` ignores, and its debounce delay in milliseconds; `main.go`
      ignores only `index.html` and waits 100 ms. */
  const ServeIgnored: set<string> := {"index.html", "index.md"}
  const ServeDelay := 300
  const LegacyIgnored: set<string> := {"index.html"}
  const LegacyDelay := 100

  /** The directories a Create event adds to the watch. */
  function NewDirs(events: seq<Event>, ignored: set<string>, isDir: string -> bool): set<string> {
    if events == [] then {}
    else
      var e := events[|events| - 1];
      NewDirs(events[..|events| - 1], ignored, isDir) +
        (if Base(e.name) !in ignored && e.create && isDir(e.name) then {e.name} else {})
  }

  /** The gaps between consecutive accepted events long enough for the
      timer to fire inside them. */
  function Closed(ts: seq<int>, delay: int): nat {
    if |ts| < 2 then 0
    else Closed(ts[..|ts| - 1], delay) + (if ts[|ts| - 1] - ts[|ts| - 2] >= delay then 1 else 0)
  }

  /** The builds the events lead to: one per burst of accepted events
      closer together than the delay. */
  function Bursts(ts: seq<int>, delay: int): nat {
    if ts == [] then 0 else Closed(ts, delay) + 1
  }

  lemma {:induction false} ClosedBound(ts: seq<int>, delay: int)
    ensures Closed(ts, delay) <= if ts == [] then 0 else |ts| - 1
    ensures (forall i :: 0 < i < |ts| ==> ts[i] - ts[i - 1] < delay) ==> Closed(ts, delay) == 0
    ensures (forall i :: 0 < i < |ts| ==> ts[i] - ts[i - 1] >= delay) ==> Closed(ts, delay) == if ts == [] then 0 else |ts| - 1
  {
    if |ts| >= 2 {
      ClosedBound(ts[..|ts| - 1], delay);
    }
  }

  /** Any number of accepted events each closer than the delay to the one
      before give one build; there is never more than one build per event,
      and one per event when they are all that far apart. */
  lemma BurstFacts(ts: seq<int>, delay: int)
    ensures ts != [] && (forall i :: 0 < i < |ts| ==> ts[i] - ts[i - 1] < delay) ==> Bursts(ts, delay) == 1
    ensures (forall i :: 0 < i < |ts| ==> ts[i] - ts[i - 1] >= delay) ==> Bursts(ts, delay) == |ts|
    ensures Bursts(ts, delay) <= |ts| && (Bursts(ts, delay) == 0 <==> ts == [])
  {
    ClosedBound(ts, delay);
  }

  /** The watch loop of `run`: ignores events on the files the build
      writes, watches created directories, and (re)arms the rebuild timer. */
  class Watcher {
    const delay: int
    const ignored: set<string>
    const hub: Hub
    var watched: set<string>
    var builds: seq<bool>
    var notices: nat

    constructor (delay: int, ignored: set<string>, hub: Hub, watched: set<string>)
      ensures this.delay == delay && this.ignored == ignored && this.hub == hub
      ensures this.watched == watched && builds == [] && notices == 0
    {
      this.delay := delay;
      this.ignored := ignored;
      this.hub := hub;
      this.watched := watched;
      builds := [];
      notices := 0;
    }

    /** The timer's callback: a build, whose outcome is `ok`, then one
        notification whether it succeeded or not. */
    method Fire(ok: bool)
      modifies this, hub
      ensures builds == old(builds) + [ok] && notices == old(notices) + 1
      ensures hub.clients == Filled(old(hub.clients)) && watched == old(watched)
    {
      builds := builds + [ok];
      hub.NotifyClients();
      notices := notices + 1;
    }

    /** The loop over `events` (in time order) and then a quiet period in
        which a pending timer fires. `outcome(k)` is the result of build
        number `k`. */
    method Run(events: seq<Event>, isDir: string -> bool, outcome: nat -> bool)
      requires forall i :: 0 < i < |events| ==> events[i - 1].at <= events[i].at
      modifies this, hub
      ensures |builds| == |old(builds)| + Bursts(Accepted(events, ignored), delay)
      ensures builds[..|old(builds)|] == old(builds)
      ensures forall k :: |old(builds)| <= k < |builds| ==> builds[k] == outcome(k)
      ensures notices == old(notices) + (|builds| - |old(builds)|)
      ensures watched == old(watched) + NewDirs(events, ignored, isDir)
      ensures hub.clients.Keys == old(hub.clients).Keys
      ensures |builds| > |old(builds)| ==> forall ch :: ch in hub.clients ==> hub.clients[ch]
    {
      ghost var now;
      var timer;
      timer, now := Loop(events, isDir, outcome);
      if timer.Some? {
        Fire(outcome(|builds|));
      }
    }

    /** The loop proper: after it, a timer may still be pending. */
    method Loop(events: seq<Event>, isDir: string -> bool, outcome: nat -> bool)
      returns (timer: Option<int>, ghost now: int)
      requires forall i :: 0 < i < |events| ==> events[i - 1].at <= events[i].at
      modifies this, hub
      ensures Pending(Accepted(events, ignored), timer, |old(builds)|, now)
      ensures Kept(old(builds), old(notices), old(hub.clients).Keys, outcome)
      ensures watched == old(watched) + NewDirs(events, ignored, isDir)
    {
      timer := None;
      now := if events == [] then 0 else events[0].at;
      var i := 0;
      while i < |events|
        invariant 0 <= i <= |events|
        invariant Pending(Accepted(events[..i], ignored), timer, |old(builds)|, now)
        invariant i < |events| ==> now <= events[i].at
        invariant Kept(old(builds), old(notices), old(hub.clients).Keys, outcome)
        invariant watched == old(watched) + NewDirs(events[..i], ignored, isDir)
      {
        PrefixSnoc(events, i, ignored, isDir);
        timer := Step(events[i], timer, isDir, outcome, Accepted(events[..i], ignored), old(builds), old(notices),
          old(hub.clients).Keys, now);
        now := events[i].at;
        i := i + 1;
      }
      assert events[..i] == events;
    }

    /** One round of the loop, for event `e` at or after time `now`: the
        timer fires first if its deadline has passed; an event that is not
        ignored then watches a created directory and re-arms the timer. */
    method Step(e: Event, timer: Option<int>, isDir: string -> bool, outcome: nat -> bool,
                ghost p: seq<int>, ghost b: seq<bool>, ghost n: nat, ghost keys: set<nat>, ghost now: int)
      returns (timer': Option<int>)
      requires Pending(p, timer, |b|, now) && now <= e.at && Kept(b, n, keys, outcome)
      modifies this, hub
      ensures Pending(p + (if Base(e.name) in ignored then [] else [e.at]), timer', |b|, e.at)
      ensures Kept(b, n, keys, outcome)
      ensures watched == old(watched) + (if Base(e.name) !in ignored && e.create && isDir(e.name) then {e.name} else {})
    {
      timer' := FireIfDue(timer, e.at, outcome, p, b, n, keys, now);
      if Base(e.name) !in ignored {
        if e.create && isDir(e.name) {
          watched := watched + {e.name};
        }
        Arm(p, timer', |b|, e.at);
        timer' := Some(e.at + delay);
      } else {
        assert p + [] == p;
      }
    }

    /** The timer fires when its deadline is at or before `t`. */
    method FireIfDue(timer: Option<int>, t: int, outcome: nat -> bool,
                     ghost p: seq<int>, ghost b: seq<bool>, ghost n: nat, ghost keys: set<nat>, ghost now: int)
      returns (timer': Option<int>)
      requires Pending(p, timer, |b|, now) && now <= t && Kept(b, n, keys, outcome)
      modifies this, hub
      ensures Pending(p, timer', |b|, t) && Kept(b, n, keys, outcome)
      ensures timer'.Some? ==> timer'.value > t
      ensures watched == old(watched)
    {
      timer' := timer;
      if timer'.Some? && timer'.value <= t {
        Fire(outcome(|builds|));
        timer' := None;
      }
    }

    /** Accepting an event at `t` when no timer is due re-arms the timer
        and counts a closed gap exactly when the last one has fired. */
    lemma Arm(p: seq<int>, timer: Option<int>, b0: nat, t: int)
      requires Pending(p, timer, b0, t) && (timer.Some? ==> timer.value > t)
      ensures Pending(p + [t], Some(t + delay), b0, t)
    {
      ClosedSnoc(p, t, delay);
    }

    /** The builds before the loop (`b`, with `n` notices) are kept, build
        number `k` after them had outcome `k`, each was followed by one
        notice, and once one has been made every client has been signalled. */
    ghost predicate Kept(b: seq<bool>, n: nat, keys: set<nat>, outcome: nat -> bool)
      reads this, hub
    {
      |b| <= |builds| && builds[..|b|] == b && (forall k :: |b| <= k < |builds| ==> builds[k] == outcome(k)) &&
      notices == n + (|builds| - |b|) && hub.clients.Keys == keys &&
      (|builds| > |b| ==> forall ch :: ch in hub.clients ==> hub.clients[ch])
    }

    /** Between events: with no accepted event yet nothing happened; after
        some, either the timer of the last one is armed, or it has fired,
        which can only be at or after its deadline. */
    ghost predicate Pending(p: seq<int>, timer: Option<int>, b0: nat, now: int)
      reads this
    {
      if p == [] then timer.None? && |builds| == b0
      else
        (timer == Some(p[|p| - 1] + delay) && |builds| == b0 + Closed(p, delay)) ||
        (timer.None? && |builds| == b0 + Closed(p, delay) + 1 && p[|p| - 1] + delay <= now)
    }
  }

  /** One more event extends the accepted times and the new directories by
      what that event contributes. */
  lemma PrefixSnoc(events: seq<Event>, i: nat, ignored: set<string>, isDir: string -> bool)
    requires i < |events|
    ensures Accepted(events[..i + 1], ignored) ==
      Accepted(events[..i], ignored) + (if Base(events[i].name) in ignored then [] else [events[i].at])
    ensures NewDirs(events[..i + 1], ignored, isDir) == NewDirs(events[..i], ignored, isDir) +
      (if Base(events[i].name) !in ignored && events[i].create && isDir(events[i].name) then {events[i].name} else {})
  {
    assert events[..i + 1][..i] == events[..i];
  }

  lemma ClosedSnoc(p: seq<int>, t: int, delay: int)
    ensures Closed(p + [t], delay) == Closed(p, delay) + (if p != [] && t - p[|p| - 1] >= delay then 1 else 0)
  {
    if p != [] {
      assert (p + [t])[..|p + [t]| - 1] == p;
    }
  }

  // ---- Port probing ----

  /** The listen loop of `run`: up to 50 attempts on consecutive ports
      from `port`, serving on the first one that accepts (`free`). */
  method Listen(port: int, free: int -> bool) returns (served: Option<int>, tries: nat)
    ensures 1 <= tries <= 50
    ensures served.Some? ==> (served.value == port + tries - 1 && free(served.value) &&
      forall q :: port <= q < served.value ==> !free(q))
    ensures served.None? <==> tries == 50 && forall q :: port <= q < port + 50 ==> !free(q)
  {
    var p := port;
    var attempts := 0;
    while attempts < 50
      invariant 0 <= attempts <= 50 && p == port + attempts
      invariant forall q :: port <= q < p ==> !free(q)
    {
      if free(p) {
        return Some(p), attempts + 1;
      }
      p := p + 1;
      attempts := attempts + 1;
    }
    return None, 50;
  }
}
