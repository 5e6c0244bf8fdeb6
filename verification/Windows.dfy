/** The two kinds of sliding window the heuristics keep: lists of timestamps and maps from an
    item to the time it was last seen. Each is related to the whole list of its sightings. */
module Windows {
  type Time = real

  datatype Sighting<I> = Sighting(item: I, at: Time)

  ghost predicate NoneAfter<I>(s: seq<Sighting<I>>, clock: Time) {
    forall i :: 0 <= i < |s| ==> s[i].at <= clock
  }

  /** Times never decrease and do not exceed `clock`. */
  ghost predicate InOrder<I>(s: seq<Sighting<I>>, clock: Time) {
    NoneAfter(s, clock) && forall i, j :: 0 <= i <= j < |s| ==> s[i].at <= s[j].at
  }

  // ---- What a window should hold ----

  /** The sightings of the last `w` seconds. */
  function Recent<I>(s: seq<Sighting<I>>, now: Time, w: Time): seq<Sighting<I>> {
    if s == [] then [] else
      var n := |s| - 1;
      Recent(s[..n], now, w) + if now - s[n].at <= w then [s[n]] else []
  }

  function Times<I>(s: seq<Sighting<I>>): seq<Time> {
    seq(|s|, i requires 0 <= i < |s| => s[i].at)
  }

  /** The different items among them. */
  ghost function RecentItems<I>(s: seq<Sighting<I>>, now: Time, w: Time): set<I> {
    set x | x in s && now - x.at <= w :: x.item
  }

  // ---- Lists of timestamps ----

  /** `ts` lacks only sightings that no window ending at `clock` or later still covers. */
  ghost predicate StampFits<I>(ts: seq<Time>, s: seq<Sighting<I>>, w: Time, clock: Time) {
    && |ts| <= |s|
    && (forall i :: 0 <= i < |ts| ==> ts[i] == s[|s| - |ts| + i].at)
    && (forall i :: 0 <= i < |s| - |ts| ==> clock - s[i].at > w)
  }

  lemma {:induction false} RecentIsSuffix<I>(s: seq<Sighting<I>>, now: Time, w: Time, k: nat)
    requires k <= |s|
    requires forall i :: 0 <= i < k ==> now - s[i].at > w
    requires forall i :: k <= i < |s| ==> now - s[i].at <= w
    ensures Recent(s, now, w) == s[k..]
  {
    var n := |s| - 1;
    if n >= k {
      RecentIsSuffix(s[..n], now, w, k);
      assert s[k..] == s[..n][k..] + [s[n]];
    } else if n >= 0 {
      RecentIsSuffix(s[..n], now, w, n);
    }
  }

  /** The index of the first timestamp of the last three seconds. */
  method KeepIndex(ts: seq<Time>, current: Time) returns (keepIndex: nat)
    ensures keepIndex <= |ts|
    ensures forall j :: 0 <= j < keepIndex ==> current - ts[j] > 3.0
    ensures keepIndex < |ts| ==> current - ts[keepIndex] <= 3.0
  {
    keepIndex := 0;
    for i := 0 to |ts|
      invariant keepIndex == if i < |ts| then 0 else |ts|
      invariant forall j :: 0 <= j < i ==> current - ts[j] > 3.0
    {
      if current - ts[i] <= 3.0 {
        keepIndex := i;
        break;
      }
      if i == |ts| - 1 {
        keepIndex := |ts|;
      }
    }
  }

  /** On an ordered list with nothing live missing, what remains is exactly the window. */
  lemma TrimmedIsRecent<I>(ts: seq<Time>, s: seq<Sighting<I>>, clock: Time, now: Time, k: nat, x: Sighting<I>, t: seq<Sighting<I>>)
    requires InOrder(s, clock) && StampFits(ts, s, 3.0, clock) && clock <= now == x.at && t == s + [x]
    requires k <= |ts| && (forall j :: 0 <= j < k ==> now - ts[j] > 3.0) && (k < |ts| ==> now - ts[k] <= 3.0)
    ensures ts[k..] + [now] == Times(Recent(t, now, 3.0))
    ensures StampFits(ts[k..] + [now], t, 3.0, now)
  {
    var d := |s| - |ts|;
    forall j | 0 <= j < d + k ensures now - t[j].at > 3.0 {
      if j >= d {
        assert t[j].at == ts[j - d];
      }
    }
    RecentIsSuffix(t, now, 3.0, d + k);
  }

  /** Drops the timestamps older than three seconds and appends the current one. */
  method AddTimestamp<I>(ts: seq<Time>, current: Time, ghost s: seq<Sighting<I>>, ghost item: I, ghost clock: Time) returns (r: seq<Time>)
    requires InOrder(s, clock) && clock <= current && StampFits(ts, s, 3.0, clock)
    ensures r == Times(Recent(s + [Sighting(item, current)], current, 3.0))
    ensures StampFits(r, s + [Sighting(item, current)], 3.0, current)
  {
    var keepIndex := KeepIndex(ts, current);
    r := ts[keepIndex..] + [current];
    TrimmedIsRecent(ts, s, clock, current, keepIndex, Sighting(item, current), s + [Sighting(item, current)]);
  }

  // ---- Maps from items to times ----

  /** `m` lacks only items that no window ending at `clock` or later still covers. */
  ghost predicate SeenFits<I>(m: map<I, Time>, s: seq<Sighting<I>>, w: Time, clock: Time) {
    && (forall x :: x in m ==> Sighting(x, m[x]) in s)
    && (forall i :: 0 <= i < |s| ==> (s[i].item in m && m[s[i].item] >= s[i].at) || clock - s[i].at > w)
  }

  /** The entries of at most `age` seconds. */
  function Young<I>(m: map<I, Time>, now: Time, age: Time): map<I, Time> {
    map x | x in m && now - m[x] <= age :: m[x]
  }

  /** The loop that deletes the entries older than `age`. */
  method Expire<I(==)>(m: map<I, Time>, now: Time, age: Time) returns (r: map<I, Time>)
    ensures r == Young(m, now, age)
  {
    r := m;
    var xs := m.Keys;
    while xs != {}
      invariant xs <= m.Keys
      invariant r == map x | x in m && (x in xs || now - m[x] <= age) :: m[x]
      decreases |xs|
    {
      var x :| x in xs;
      if now - m[x] > age {
        r := r - {x};
      }
      xs := xs - {x};
    }
  }

  /** Noting an item. */
  lemma SeenAgain<I>(m: map<I, Time>, s: seq<Sighting<I>>, w: Time, clock: Time, item: I, now: Time, t: seq<Sighting<I>>)
    requires NoneAfter(s, clock) && SeenFits(m, s, w, clock) && clock <= now && t == s + [Sighting(item, now)]
    ensures SeenFits(m[item := now], t, w, now)
  {
    var r := m[item := now];
    forall i | 0 <= i < |t| ensures (t[i].item in r && r[t[i].item] >= t[i].at) || now - t[i].at > w {
      if i < |s| {
        assert t[i] == s[i];
      }
    }
    assert t[|s|] == Sighting(item, now);
    forall x | x in r ensures Sighting(x, r[x]) in t {
      if x != item {
        assert Sighting(x, m[x]) in s;
      }
    }
  }

  /** Deleting what is older than the window, or than any longer age, loses nothing live. */
  lemma SeenForgotten<I>(m: map<I, Time>, s: seq<Sighting<I>>, w: Time, now: Time, age: Time, clock: Time)
    requires SeenFits(m, s, w, clock) && now - age <= clock - w
    ensures SeenFits(Young(m, now, age), s, w, clock)
  {
    var r := Young(m, now, age);
    forall i | 0 <= i < |s| ensures (s[i].item in r && r[s[i].item] >= s[i].at) || clock - s[i].at > w {
    }
  }

  /** Once trimmed to the window, the map holds exactly the items of the window. */
  lemma SeenIsRecent<I>(m: map<I, Time>, s: seq<Sighting<I>>, w: Time, now: Time)
    requires SeenFits(m, s, w, now)
    ensures Young(m, now, w).Keys == RecentItems(s, now, w)
    ensures |Young(m, now, w)| == |RecentItems(s, now, w)|
  {
    var r := Young(m, now, w);
    forall x | x in r.Keys ensures x in RecentItems(s, now, w) {
      assert Sighting(x, m[x]) in s;
    }
    forall x | x in RecentItems(s, now, w) ensures x in r.Keys {
      var y :| y in s && now - y.at <= w && y.item == x;
      var i :| 0 <= i < |s| && s[i] == y;
    }
    assert |r| == |r.Keys|;
  }

  /** Notes an item and forgets what is older than the window. */
  method NoteItem<I(==)>(m: map<I, Time>, item: I, now: Time, w: Time, ghost s: seq<Sighting<I>>, ghost clock: Time) returns (r: map<I, Time>)
    requires InOrder(s, clock) && SeenFits(m, s, w, clock) && clock <= now
    ensures SeenFits(r, s + [Sighting(item, now)], w, now)
    ensures r.Keys == RecentItems(s + [Sighting(item, now)], now, w)
  {
    ghost var t := s + [Sighting(item, now)];
    r := m[item := now];
    SeenAgain(m, s, w, clock, item, now, t);
    SeenIsRecent(r, t, w, now);
    SeenForgotten(r, t, w, now, w, now);
    r := Expire(r, now, w);
  }
}
