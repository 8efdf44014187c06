/** The binding step of the pool's constructor: every configured channel is
    either resolved to attribute locations of the shader program or
    recorded as malformed. */
module Binding {
  import opened ChannelStore

  datatype Option<T> = None | Some(value: T)

  /** The configured `type` of a channel: one of the three store kinds, or
      any other value, which the binding step rejects. */
  datatype ChannelType = Typed(kind: Kind) | Untyped(tag: string)

  /** A channel type as a configuration spells it: an `Untyped` tag never
      names one of the three store kinds. */
  predicate WellTagged(t: ChannelType)
  {
    t.Untyped? ==> t.tag != "scalar" && t.tag != "vec" && t.tag != "mat"
  }

  /** The channel type a configured `type` string denotes. */
  function TypeOf(tag: string): (t: ChannelType)
    ensures WellTagged(t)
    ensures t == Typed(Scalar) <==> tag == "scalar"
    ensures t == Typed(Vec) <==> tag == "vec"
    ensures t == Typed(Mat) <==> tag == "mat"
    ensures t.Untyped? ==> t.tag == tag
  {
    if tag == "scalar" then Typed(Scalar)
    else if tag == "vec" then Typed(Vec)
    else if tag == "mat" then Typed(Mat)
    else Untyped(tag)
  }

  /** A channel descriptor.  `dynamic` is `None` when the configuration
      leaves it undefined, and the store's default parameter then makes the
      channel dynamic. */
  datatype Channel = Channel(name: string, ctype: ChannelType, dynamic: Option<bool>)

  function EffectiveDynamic(c: Channel): (d: bool)
    ensures c.dynamic.Some? ==> d == c.dynamic.value
    ensures c.dynamic.None? ==> d
  {
    match c.dynamic
    case None => true
    case Some(d) => d
  }

  /** A resolved channel: one attribute location, or the three column
      locations of a matrix. */
  datatype Location = Single(loc: int) | Triple(x: int, y: int, z: int)

  /** The attribute names a matrix channel is split into. */
  function Column(name: string, axis: char): string
  {
    name + ['_', axis]
  }

  ghost predicate DistinctNames(channels: seq<Channel>)
  {
    forall i, j :: 0 <= i < j < |channels| ==> channels[i].name != channels[j].name
  }

  /** How one channel binds, given the program's attribute lookup. */
  function Resolve(c: Channel, attribLocation: string -> int): (r: Option<Location>)
    ensures c.ctype.Untyped? ==> r == None
    ensures c.ctype == Typed(Scalar) || c.ctype == Typed(Vec) ==>
      (r.Some? <==> attribLocation(c.name) >= 0) && (r.Some? ==> r.value == Single(attribLocation(c.name)))
    ensures c.ctype == Typed(Mat) ==>
      (r.Some? <==> attribLocation(Column(c.name, 'x')) >= 0 && attribLocation(Column(c.name, 'y')) >= 0) &&
      (r.Some? ==> r.value == Triple(attribLocation(Column(c.name, 'x')), attribLocation(Column(c.name, 'y')),
                                     attribLocation(Column(c.name, 'z'))))
  {
    match c.ctype
    case Typed(Scalar) | Typed(Vec) =>
      var loc := attribLocation(c.name);
      if loc < 0 then None else Some(Single(loc))
    case Typed(Mat) =>
      var x, y, z := attribLocation(Column(c.name, 'x')), attribLocation(Column(c.name, 'y')), attribLocation(Column(c.name, 'z'));
      if x < 0 || y < 0 then None else Some(Triple(x, y, z))
    case Untyped(_) => None
  }

  /** Channel `c` ended up where `Resolve` puts it, and in one place only. */
  ghost predicate BoundAs(c: Channel, attribLocation: string -> int, locations: map<string, Location>, malformed: set<string>)
  {
    match Resolve(c, attribLocation)
    case None => c.name in malformed && c.name !in locations
    case Some(l) => c.name in locations && locations[c.name] == l && c.name !in malformed
  }

  /** The constructor's binding loop.  Every channel name lands in exactly
      one of `locations` and `malformed`; scalar and vector channels resolve
      exactly when their own location is found; matrix channels resolve
      exactly when the `_x` and `_y` columns are found (the `_z` column is
      stored but not checked); any other type is malformed. */
  method BindChannels(channels: seq<Channel>, attribLocation: string -> int)
    returns (locations: map<string, Location>, malformed: set<string>)
    requires DistinctNames(channels)
    ensures locations.Keys + malformed == (set c | c in channels :: c.name)
    ensures locations.Keys !! malformed
    ensures forall c :: c in channels && (c.ctype == Typed(Scalar) || c.ctype == Typed(Vec)) ==>
      (c.name in locations <==> attribLocation(c.name) >= 0) &&
      (c.name in locations ==> locations[c.name] == Single(attribLocation(c.name)))
    ensures forall c :: c in channels && c.ctype == Typed(Mat) ==>
      (c.name in locations <==> attribLocation(Column(c.name, 'x')) >= 0 && attribLocation(Column(c.name, 'y')) >= 0) &&
      (c.name in locations ==> locations[c.name] == Triple(attribLocation(Column(c.name, 'x')), attribLocation(Column(c.name, 'y')), attribLocation(Column(c.name, 'z'))))
    ensures forall c :: c in channels && c.ctype.Untyped? ==> c.name in malformed
    ensures forall c :: c in channels ==> BoundAs(c, attribLocation, locations, malformed)
  {
    locations, malformed := map[], {};
    var i := 0;
    while i < |channels|
      invariant 0 <= i <= |channels|
      invariant locations.Keys + malformed == (set c | c in channels[..i] :: c.name)
      invariant locations.Keys !! malformed
      invariant forall j :: 0 <= j < i ==> BoundAs(channels[j], attribLocation, locations, malformed)
    {
      var c := channels[i];
      ghost var (locations0, malformed0) := (locations, malformed);
      if c.ctype == Typed(Scalar) || c.ctype == Typed(Vec) {
        var loc := attribLocation(c.name);
        if loc < 0 {
          malformed := malformed + {c.name};
        } else {
          locations := locations[c.name := Single(loc)];
        }
      } else if c.ctype == Typed(Mat) {
        var locX := attribLocation(Column(c.name, 'x'));
        var locY := attribLocation(Column(c.name, 'y'));
        var locZ := attribLocation(Column(c.name, 'z'));
        if locX < 0 || locY < 0 {
          malformed := malformed + {c.name};
        } else {
          locations := locations[c.name := Triple(locX, locY, locZ)];
        }
      } else {
        malformed := malformed + {c.name};
      }
      assert BoundAs(c, attribLocation, locations, malformed);
      forall j | 0 <= j < i
        ensures BoundAs(channels[j], attribLocation, locations, malformed)
      {
        BoundAsFrame(channels[j], attribLocation, locations0, malformed0, locations, malformed);
      }
      assert channels[..i + 1] == channels[..i] + [c];
      i := i + 1;
    }
    assert channels[..i] == channels;
    forall c | c in channels
      ensures BoundAs(c, attribLocation, locations, malformed)
      ensures c.ctype == Typed(Scalar) || c.ctype == Typed(Vec) ==>
        (c.name in locations <==> attribLocation(c.name) >= 0) &&
        (c.name in locations ==> locations[c.name] == Single(attribLocation(c.name)))
      ensures c.ctype == Typed(Mat) ==>
        (c.name in locations <==> attribLocation(Column(c.name, 'x')) >= 0 && attribLocation(Column(c.name, 'y')) >= 0) &&
        (c.name in locations ==> locations[c.name] == Triple(attribLocation(Column(c.name, 'x')), attribLocation(Column(c.name, 'y')), attribLocation(Column(c.name, 'z'))))
      ensures c.ctype.Untyped? ==> c.name in malformed
    {
      var j :| 0 <= j < |channels| && channels[j] == c;
      BoundAsMeans(c, attribLocation, locations, malformed);
    }
  }

  /** Binding another name leaves the binding of `c` as it was. */
  lemma BoundAsFrame(c: Channel, f: string -> int, l: map<string, Location>, m: set<string>,
                     l': map<string, Location>, m': set<string>)
    requires BoundAs(c, f, l, m)
    requires (c.name in l' <==> c.name in l) && (c.name in m' <==> c.name in m)
    requires c.name in l ==> l'[c.name] == l[c.name]
    ensures BoundAs(c, f, l', m')
  {
  }

  lemma BoundAsMeans(c: Channel, f: string -> int, locations: map<string, Location>, malformed: set<string>)
    requires BoundAs(c, f, locations, malformed)
    ensures c.ctype == Typed(Scalar) || c.ctype == Typed(Vec) ==>
      (c.name in locations <==> f(c.name) >= 0) &&
      (c.name in locations ==> locations[c.name] == Single(f(c.name)))
    ensures c.ctype == Typed(Mat) ==>
      (c.name in locations <==> f(Column(c.name, 'x')) >= 0 && f(Column(c.name, 'y')) >= 0) &&
      (c.name in locations ==> locations[c.name] == Triple(f(Column(c.name, 'x')), f(Column(c.name, 'y')), f(Column(c.name, 'z'))))
    ensures c.ctype.Untyped? ==> c.name in malformed
  {
  }

  /** Whether a matrix channel binds does not depend on its `_z` column:
      two programs that differ only there bind it alike. */
  lemma MatIgnoresZColumn(c: Channel, f: string -> int, g: string -> int)
    requires c.ctype == Typed(Mat)
    requires f(Column(c.name, 'x')) == g(Column(c.name, 'x')) && f(Column(c.name, 'y')) == g(Column(c.name, 'y'))
    ensures Resolve(c, f).Some? == Resolve(c, g).Some?
  {
  }

  /** The channels that `construct` gives a store, in channel order (the
      key order of the store map): those with a location and one of the
      three store types. */
  function Resolved(channels: seq<Channel>, locations: map<string, Location>): (rs: seq<Channel>)
    ensures |rs| <= |channels|
    ensures forall k :: 0 <= k < |rs| ==> rs[k] in channels && rs[k].name in locations && rs[k].ctype.Typed?
  {
    if channels == [] then []
    else
      var init := channels[..|channels| - 1];
      var last := channels[|channels| - 1];
      assert forall c :: c in init ==> c in channels;
      Resolved(init, locations) + if last.name in locations && last.ctype.Typed? then [last] else []
  }

  lemma ResolvedStep(channels: seq<Channel>, i: nat, locations: map<string, Location>)
    requires i < |channels|
    ensures Resolved(channels[..i + 1], locations) ==
      Resolved(channels[..i], locations) + if channels[i].name in locations && channels[i].ctype.Typed? then [channels[i]] else []
  {
    assert channels[..i + 1][..|channels[..i + 1]| - 1] == channels[..i];
  }

  /** Every channel with a location and a store type receives a store, and
      no name receives two when no channel name occurs twice. */
  lemma {:induction false} ResolvedSound(channels: seq<Channel>, locations: map<string, Location>)
    ensures forall c :: c in channels && c.name in locations && c.ctype.Typed? ==> c in Resolved(channels, locations)
    ensures DistinctNames(channels) ==> DistinctNames(Resolved(channels, locations))
  {
    if channels != [] {
      var init := channels[..|channels| - 1];
      var last := channels[|channels| - 1];
      ResolvedSound(init, locations);
      assert forall c :: c in channels ==> c in init || c == last;
      assert DistinctNames(channels) ==> DistinctNames(init) && forall c :: c in init ==> c.name != last.name;
    }
  }

  /** When every channel has a location, every channel receives a store:
      a location is only ever given to a channel of a store type. */
  lemma {:induction false} ResolvedAll(channels: seq<Channel>, locations: map<string, Location>)
    requires forall k :: 0 <= k < |channels| ==> channels[k].name in locations && channels[k].ctype.Typed?
    ensures Resolved(channels, locations) == channels
  {
    if channels != [] {
      var init := channels[..|channels| - 1];
      ResolvedAll(init, locations);
      assert init + [channels[|channels| - 1]] == channels;
    }
  }
}
