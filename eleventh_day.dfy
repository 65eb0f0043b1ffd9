/** Day 11: the reactor's device network. Each input line names a device and
    the devices its outputs feed. The solvers enumerate the simple paths
    between two devices, sort the network topologically, and count paths by
    dynamic programming over that order. */
module EleventhDay {
  import opened Common

  /** A device, identified by its name, and the names of the devices it
      feeds. */
  datatype Device = Device(name: string, outputs: set<string>)

  type Devices = map<string, Device>

  datatype PathFindingError = MissingStartingDevice(name: string) | GraphIsNotADag

  // ---------------------------------------------------------------------
  // Parsing

  /** The two-character separator `": "` starts at `i`. */
  predicate SeparatorAt(s: string, i: int)
  {
    0 <= i && i + 1 < |s| && s[i] == ':' && s[i + 1] == ' '
  }

  /** `str::split(": ")`: the pieces between the occurrences of the
      separator, read from left to right. */
  function SplitOnSeparator(s: string): (r: seq<string>)
    ensures |r| >= 1
    decreases |s|
  {
    if |s| == 0 then [""]
    else if SeparatorAt(s, 0) then [""] + SplitOnSeparator(s[2..])
    else
      var rest := SplitOnSeparator(s[1..]);
      [[s[0]] + rest[0]] + rest[1..]
  }

  /** There are two pieces or more exactly when the separator occurs. */
  lemma {:induction false} SplitOnSeparatorPieces(s: string)
    ensures |SplitOnSeparator(s)| >= 2 <==> exists i :: SeparatorAt(s, i)
    decreases |s|
  {
    if |s| > 0 && !SeparatorAt(s, 0) {
      SplitOnSeparatorPieces(s[1..]);
      if exists i :: SeparatorAt(s[1..], i) {
        var i :| SeparatorAt(s[1..], i);
        assert SeparatorAt(s, i + 1);
      }
      if exists i :: SeparatorAt(s, i) {
        var i :| SeparatorAt(s, i);
        assert SeparatorAt(s[1..], i - 1);
      }
    } else if |s| > 0 {
      assert SeparatorAt(s, 0);
    }
  }

  /** A text without `':'` is a single piece. */
  lemma {:induction false} SplitWithoutColon(s: string)
    requires ':' !in s
    ensures SplitOnSeparator(s) == [s]
    decreases |s|
  {
    if |s| > 0 {
      SplitWithoutColon(s[1..]);
      assert [s[0]] + s[1..] == s;
    }
  }

  /** A name without `':'` followed by the separator is the first piece. */
  lemma {:induction false} SplitAfterName(name: string, rest: string)
    requires ':' !in name
    ensures SplitOnSeparator(name + ": " + rest) == [name] + SplitOnSeparator(rest)
    decreases |name|
  {
    var s := name + ": " + rest;
    if |name| == 0 {
      assert s == ": " + rest && s[2..] == rest;
      assert SeparatorAt(s, 0);
    } else {
      assert s[1..] == name[1..] + ": " + rest;
      assert !SeparatorAt(s, 0);
      SplitAfterName(name[1..], rest);
      assert [name[0]] + name[1..] == name;
    }
  }

  /** The set of the pieces. */
  function Elements(pieces: seq<string>): (r: set<string>)
    ensures forall x :: x in r <==> x in pieces
  {
    set x | x in pieces
  }

  /** `Device::new`: the text before the first separator is the name, the
      text after it, split at each space, the outputs; a line without the
      separator fails (where the source panics). Any further separator ends
      the output list. */
  function DeviceNew(line: string): (r: Option<Device>)
  {
    var pieces := SplitOnSeparator(line);
    if |pieces| < 2 then None
    else Some(Device(pieces[0], Elements(Split(pieces[1], ' '))))
  }

  /** The line format. */
  function FormatDevice(name: string, outputs: seq<string>): string
    requires |outputs| >= 1
  {
    name + ": " + Join(outputs, ' ')
  }

  lemma {:induction false} JoinWithoutColon(parts: seq<string>)
    requires |parts| >= 1 && forall k :: 0 <= k < |parts| ==> ':' !in parts[k]
    ensures ':' !in Join(parts, ' ')
    decreases |parts|
  {
    if |parts| > 1 {
      JoinWithoutColon(parts[1..]);
    }
  }

  /** `Device::new` reads back a formatted line when the name has no
      `':'` and the outputs neither `':'` nor a space. */
  lemma DeviceNewOfFormat(name: string, outputs: seq<string>)
    requires |outputs| >= 1 && ':' !in name
    requires forall k :: 0 <= k < |outputs| ==> ':' !in outputs[k] && ' ' !in outputs[k]
    ensures DeviceNew(FormatDevice(name, outputs)) == Some(Device(name, Elements(outputs)))
  {
    var text := Join(outputs, ' ');
    SplitAfterName(name, text);
    JoinWithoutColon(outputs);
    SplitWithoutColon(text);
    SplitJoin(outputs, ' ');
  }

  /** `Device::new` fails exactly on a line without the separator. */
  lemma DeviceNewFails(line: string)
    ensures DeviceNew(line).None? <==> !exists i :: SeparatorAt(line, i)
  {
    SplitOnSeparatorPieces(line);
  }

  /** The devices of the lines, collected by name: a later line with the
      same name replaces an earlier one (`collect` into a `HashMap`). */
  function CollectDevices(lines: seq<string>): (r: Option<Devices>)
    decreases |lines|
  {
    if |lines| == 0 then Some(map[])
    else
      var before := CollectDevices(lines[..|lines| - 1]);
      var last := DeviceNew(lines[|lines| - 1]);
      if before.None? || last.None? then None
      else Some(before.value[last.value.name := last.value])
  }

  /** Every device is stored under its own name. */
  predicate WellKeyed(devices: Devices)
  {
    forall k :: k in devices ==> devices[k].name == k
  }

  /** Every name used as an output is a device. */
  predicate Closed(devices: Devices)
  {
    forall k, o :: k in devices && o in devices[k].outputs ==> o in devices
  }

  /** The names used as outputs that are not devices yet. */
  function OutputOnly(devices: Devices): set<string>
  {
    set k, o | k in devices && o in devices[k].outputs && o !in devices :: o
  }

  /** `parse_input`: the collected devices, then a device without outputs
      for every name only ever used as an output. */
  function ParseInput(lines: seq<string>): (r: Option<Devices>)
  {
    match CollectDevices(lines)
    case None => None
    case Some(devices) =>
      var added := map o | o in OutputOnly(devices) :: Device(o, {});
      Some(devices + added)
  }

  lemma {:induction false} CollectedWellKeyed(lines: seq<string>)
    ensures CollectDevices(lines).Some? ==> WellKeyed(CollectDevices(lines).value)
    decreases |lines|
  {
    if |lines| > 0 {
      CollectedWellKeyed(lines[..|lines| - 1]);
    }
  }

  /** After `parse_input` every output is a device, each device sits under
      its name, the collected devices are kept as they were and the added
      ones have no outputs. */
  lemma ParseInputSpec(lines: seq<string>)
    ensures ParseInput(lines).Some? <==> CollectDevices(lines).Some?
    ensures ParseInput(lines).Some? ==>
      var collected := CollectDevices(lines).value;
      var devices := ParseInput(lines).value;
      && Closed(devices) && WellKeyed(devices)
      && (forall k :: k in collected ==> k in devices && devices[k] == collected[k])
      && (forall k :: k in devices && k !in collected ==>
            devices[k] == Device(k, {}) && exists j :: j in collected && k in collected[j].outputs)
  {
    CollectedWellKeyed(lines);
    if CollectDevices(lines).Some? {
      var collected := CollectDevices(lines).value;
      var devices := ParseInput(lines).value;
      forall k, o | k in devices && o in devices[k].outputs ensures o in devices {
        if k in collected && o !in collected {
          assert o in OutputOnly(collected);
        }
      }
    }
  }

  // ---------------------------------------------------------------------
  // Simple paths (`find_paths`)

  /** What `find_paths` reports: the node sets of the paths found, each the
      nodes before the end (with the path passed in). A `Vec` in the source,
      filled in the iteration order of the output sets; a multiset here. */
  datatype PathFindingStatus = InvalidPathFound | ValidPathFound(paths: multiset<set<string>>) | ClosedLoop

  lemma FewerOutside(keys: set<string>, path: set<string>, from: string)
    requires from in keys && from !in path
    ensures |keys - (path + {from})| < |keys - path|
  {
    assert keys - path == (keys - (path + {from})) + {from};
  }

  /** `find_paths`: a depth-first enumeration of the paths from `from` to
      `to` that avoid `path`; the required nodes must all be on a path for
      it to count. A failure below a device is dropped. */
  ghost function FindPaths(devices: Devices, from: string, to: string, path: set<string>, required: set<string>)
    : Result<PathFindingStatus, PathFindingError>
    decreases |devices.Keys - path|, 1
  {
    if from in path then Ok(ClosedLoop)
    else if from == to then
      if required <= path then Ok(ValidPathFound(multiset{path})) else Ok(InvalidPathFound)
    else if from !in devices then Err(MissingStartingDevice(from))
    else
      FewerOutside(devices.Keys, path, from);
      Ok(ValidPathFound(ChildPaths(devices, devices[from].outputs, to, path + {from}, required)))
  }

  /** The paths found below each of `outputs`, gathered. */
  ghost function ChildPaths(devices: Devices, outputs: set<string>, to: string, path: set<string>, required: set<string>)
    : multiset<set<string>>
    decreases |devices.Keys - path|, 2, |outputs|
  {
    if outputs == {} then multiset{}
    else
      var o := Pick(outputs);
      ChildPaths(devices, outputs - {o}, to, path, required) + Found(FindPaths(devices, o, to, path, required))
  }

  /** Some element of a non-empty set: the iteration order of a `HashSet`
      is not modelled, and nothing proved depends on it. */
  ghost function Pick(s: set<string>): (o: string)
    requires s != {}
    ensures o in s
  {
    var o :| o in s; o
  }

  /** The paths of a `ValidPathFound`, none otherwise. */
  function Found(r: Result<PathFindingStatus, PathFindingError>): multiset<set<string>>
  {
    if r.Ok? && r.value.ValidPathFound? then r.value.paths else multiset{}
  }

  /** The nodes of a path before its last. */
  function Before(p: seq<string>): set<string>
  {
    set k | 0 <= k < |p| - 1 :: p[k]
  }

  /** `p` runs along outputs to `to`, which it reaches only at its end, and
      visits no node twice and none of `avoid`. */
  predicate IsSimplePath(devices: Devices, p: seq<string>, to: string, avoid: set<string>)
  {
    && |p| >= 1 && p[|p| - 1] == to && to !in avoid
    && (forall k :: 0 <= k < |p| - 1 ==>
          p[k] in devices && p[k + 1] in devices[p[k]].outputs && p[k] != to && p[k] !in avoid)
    && (forall k, l :: 0 <= k < l < |p| - 1 ==> p[k] != p[l])
  }

  lemma {:induction false} ChildPathsFrom(devices: Devices, outputs: set<string>, to: string, path: set<string>,
                                          required: set<string>, found: set<string>) returns (o: string)
    requires found in ChildPaths(devices, outputs, to, path, required)
    ensures o in outputs && found in Found(FindPaths(devices, o, to, path, required))
    decreases |outputs|
  {
    var c := Pick(outputs);
    if found in Found(FindPaths(devices, c, to, path, required)) {
      o := c;
    } else {
      o := ChildPathsFrom(devices, outputs - {c}, to, path, required, found);
    }
  }

  lemma {:induction false} ChildPathsHas(devices: Devices, outputs: set<string>, to: string, path: set<string>,
                                         required: set<string>, o: string, found: set<string>)
    requires o in outputs && found in Found(FindPaths(devices, o, to, path, required))
    ensures found in ChildPaths(devices, outputs, to, path, required)
    decreases |outputs|
  {
    var c := Pick(outputs);
    if c != o {
      ChildPathsHas(devices, outputs - {c}, to, path, required, o, found);
    }
  }

  /** Every node set `find_paths` reports is that of a simple path from
      `from` to `to` avoiding `path`, with the path passed in, and holds the
      required nodes. */
  lemma {:induction false} FindPathsSound(devices: Devices, from: string, to: string, path: set<string>,
                                          required: set<string>, found: set<string>) returns (p: seq<string>)
    ensures found in Found(FindPaths(devices, from, to, path, required)) ==>
      && |p| >= 1 && p[0] == from && IsSimplePath(devices, p, to, path)
      && found == path + Before(p) && required <= found
    decreases |devices.Keys - path|
  {
    p := [from];
    assert Before(p) == {};
    if from !in path && from != to && from in devices {
      var next := path + {from};
      FewerOutside(devices.Keys, path, from);
      if found in ChildPaths(devices, devices[from].outputs, to, next, required) {
        var o := ChildPathsFrom(devices, devices[from].outputs, to, next, required, found);
        var rest := FindPathsSound(devices, o, to, next, required, found);
        p := [from] + rest;
        PrependPath(devices, from, rest, to, path);
      }
    }
  }

  /** A step from `from` onto a simple path that avoids `from` too. */
  lemma PrependPath(devices: Devices, from: string, rest: seq<string>, to: string, path: set<string>)
    requires from in devices && from != to && from !in path
    requires |rest| >= 1 && rest[0] in devices[from].outputs && IsSimplePath(devices, rest, to, path + {from})
    ensures IsSimplePath(devices, [from] + rest, to, path)
    ensures path + Before([from] + rest) == path + {from} + Before(rest)
  {
    var p := [from] + rest;
    assert forall k :: 0 < k < |p| ==> p[k] == rest[k - 1];
    BeforeCons(from, rest);
  }

  lemma BeforeCons(x: string, rest: seq<string>)
    requires |rest| >= 1
    ensures Before([x] + rest) == {x} + Before(rest)
  {
    var p := [x] + rest;
    assert p[0] == x;
    forall y | y in Before(p) ensures y in {x} + Before(rest) {
      var k :| 0 <= k < |p| - 1 && p[k] == y;
      if k > 0 {
        assert rest[k - 1] == y;
      }
    }
    forall y | y in Before(rest) ensures y in Before(p) {
      var k :| 0 <= k < |rest| - 1 && rest[k] == y;
      assert p[k + 1] == y;
    }
  }

  /** Every simple path from `from` to `to` avoiding `path` whose nodes,
      with the path passed in, hold the required ones is reported. */
  lemma {:induction false} FindPathsComplete(devices: Devices, p: seq<string>, to: string, path: set<string>,
                                             required: set<string>)
    requires IsSimplePath(devices, p, to, path) && required <= path + Before(p)
    ensures path + Before(p) in Found(FindPaths(devices, p[0], to, path, required))
    decreases |p|
  {
    var from := p[0];
    if |p| == 1 {
      assert Before(p) == {};
      assert path + Before(p) == path;
      assert FindPaths(devices, from, to, path, required) == Ok(ValidPathFound(multiset{path}));
    } else {
      var next := path + {from};
      var rest := TailPath(devices, p, to, path);
      FindPathsComplete(devices, rest, to, next, required);
      FewerOutside(devices.Keys, path, from);
      ChildPathsHas(devices, devices[from].outputs, to, next, required, rest[0], path + Before(p));
      assert FindPaths(devices, from, to, path, required)
        == Ok(ValidPathFound(ChildPaths(devices, devices[from].outputs, to, next, required)));
    }
  }

  /** The rest of a simple path after its first node avoids that node too. */
  lemma TailPath(devices: Devices, p: seq<string>, to: string, path: set<string>) returns (rest: seq<string>)
    requires IsSimplePath(devices, p, to, path) && |p| > 1
    ensures rest == p[1..] && IsSimplePath(devices, rest, to, path + {p[0]})
    ensures p[0] in devices && p[0] != to && p[0] !in path && rest[0] in devices[p[0]].outputs
    ensures path + Before(p) == path + {p[0]} + Before(rest)
  {
    rest := p[1..];
    assert forall k :: 0 <= k < |rest| ==> rest[k] == p[k + 1];
    assert [p[0]] + rest == p;
    BeforeCons(p[0], rest);
  }

  // ---------------------------------------------------------------------
  // How often `find_paths` reports each node set

  /** The simple paths from `from` to `to` that avoid `avoid`, built the way
      `find_paths` explores them. */
  ghost function SimplePaths(devices: Devices, from: string, to: string, avoid: set<string>): set<seq<string>>
    decreases |devices.Keys - avoid|, 1
  {
    if from in avoid then {}
    else if from == to then {[from]}
    else if from !in devices then {}
    else
      FewerOutside(devices.Keys, avoid, from);
      Via(devices, from, devices[from].outputs, to, avoid + {from})
  }

  /** The simple paths that step from `from` onto one of `outputs` and go on
      to `to` avoiding `avoid`. */
  ghost function Via(devices: Devices, from: string, outputs: set<string>, to: string, avoid: set<string>)
    : set<seq<string>>
    decreases |devices.Keys - avoid|, 2
  {
    set o, r | o in outputs && r in SimplePaths(devices, o, to, avoid) :: [from] + r
  }

  /** `from` put in front of each of `paths`. */
  ghost function Prefixed(from: string, paths: set<seq<string>>): set<seq<string>>
  {
    set r | r in paths :: [from] + r
  }

  /** `SimplePaths` holds exactly the simple paths that start at `from`. */
  lemma {:induction false} SimplePathsAre(devices: Devices, from: string, to: string, avoid: set<string>, p: seq<string>)
    ensures p in SimplePaths(devices, from, to, avoid) <==> |p| >= 1 && p[0] == from && IsSimplePath(devices, p, to, avoid)
    decreases |p|
  {
    if from !in avoid && from != to && from in devices {
      var next := avoid + {from};
      var outputs := devices[from].outputs;
      assert SimplePaths(devices, from, to, avoid) == Via(devices, from, outputs, to, next);
      if p in SimplePaths(devices, from, to, avoid) {
        var o, r :| o in outputs && r in SimplePaths(devices, o, to, next) && p == [from] + r;
        SimplePathsAre(devices, o, to, next, r);
        PrependPath(devices, from, r, to, avoid);
      }
      if |p| >= 1 && p[0] == from && IsSimplePath(devices, p, to, avoid) {
        var rest := TailPath(devices, p, to, avoid);
        SimplePathsAre(devices, rest[0], to, next, rest);
        assert p == [from] + rest;
      }
    } else if from == to && from !in avoid {
      if |p| >= 1 && p[0] == from && IsSimplePath(devices, p, to, avoid) {
        assert |p| == 1;
        assert p == [from];
      }
    }
  }

  lemma SimplePathsStart(devices: Devices, from: string, to: string, avoid: set<string>)
    ensures forall r | r in SimplePaths(devices, from, to, avoid) :: |r| >= 1 && r[0] == from
  {
    forall r | r in SimplePaths(devices, from, to, avoid) ensures |r| >= 1 && r[0] == from {
      SimplePathsAre(devices, from, to, avoid, r);
    }
  }

  /** Taking one output out of `outputs` splits off the paths through it. */
  lemma ViaSplit(devices: Devices, from: string, outputs: set<string>, to: string, avoid: set<string>, o: string)
    requires o in outputs
    ensures Via(devices, from, outputs, to, avoid)
      == Via(devices, from, outputs - {o}, to, avoid) + Prefixed(from, SimplePaths(devices, o, to, avoid))
    ensures Via(devices, from, outputs - {o}, to, avoid) !! Prefixed(from, SimplePaths(devices, o, to, avoid))
  {
    forall x | x in Via(devices, from, outputs - {o}, to, avoid) ensures |x| >= 2 && x[1] in outputs - {o} {
      var o', r :| o' in outputs - {o} && r in SimplePaths(devices, o', to, avoid) && x == [from] + r;
      SimplePathsAre(devices, o', to, avoid, r);
    }
    forall x | x in Prefixed(from, SimplePaths(devices, o, to, avoid)) ensures |x| >= 2 && x[1] == o {
      var r :| r in SimplePaths(devices, o, to, avoid) && x == [from] + r;
      SimplePathsAre(devices, o, to, avoid, r);
    }
  }

  /** The node set `find_paths` reports for path `p`, once, when it holds
      the required nodes. */
  function PathSet(p: seq<string>, path: set<string>, required: set<string>): multiset<set<string>>
  {
    if required <= path + Before(p) then multiset{path + Before(p)} else multiset{}
  }

  /** The node sets reported for each of `paths`, gathered. */
  ghost function PathSets(paths: set<seq<string>>, path: set<string>, required: set<string>): multiset<set<string>>
    decreases |paths|
  {
    if paths == {} then multiset{}
    else
      var p := AnyPath(paths);
      PathSets(paths - {p}, path, required) + PathSet(p, path, required)
  }

  /** Some path of a non-empty set; which one does not matter. */
  ghost function AnyPath(paths: set<seq<string>>): (p: seq<string>)
    requires paths != {}
    ensures p in paths
  {
    var p :| p in paths; p
  }

  lemma {:induction false} PathSetsRemove(paths: set<seq<string>>, path: set<string>, required: set<string>, q: seq<string>)
    requires q in paths
    ensures PathSets(paths, path, required) == PathSets(paths - {q}, path, required) + PathSet(q, path, required)
    decreases |paths|
  {
    var p := AnyPath(paths);
    if p != q {
      PathSetsRemove(paths - {p}, path, required, q);
      PathSetsRemove(paths - {q}, path, required, p);
      assert paths - {p} - {q} == paths - {q} - {p};
    }
  }

  lemma {:induction false} PathSetsUnion(a: set<seq<string>>, b: set<seq<string>>, path: set<string>, required: set<string>)
    requires a !! b
    ensures PathSets(a + b, path, required) == PathSets(a, path, required) + PathSets(b, path, required)
    decreases |b|
  {
    if b == {} {
      assert a + b == a;
    } else {
      var q :| q in b;
      var rest := b - {q};
      assert a !! rest && (a + b) - {q} == a + rest;
      PathSetsRemove(a + b, path, required, q);
      PathSetsUnion(a, rest, path, required);
      PathSetsRemove(b, path, required, q);
    }
  }

  /** Putting `from` in front of each path puts it in the node sets. */
  lemma {:induction false} PathSetsPrepend(from: string, paths: set<seq<string>>, path: set<string>, required: set<string>)
    requires forall r | r in paths :: |r| >= 1
    ensures PathSets(Prefixed(from, paths), path, required) == PathSets(paths, path + {from}, required)
    decreases |paths|
  {
    if paths == {} {
      assert Prefixed(from, paths) == {};
    } else {
      var q :| q in paths;
      var x := [from] + q;
      assert x[1..] == q;
      forall y | y in Prefixed(from, paths) - {x} ensures y in Prefixed(from, paths - {q}) {
        var r :| r in paths && y == [from] + r;
        assert y[1..] == r;
      }
      forall y | y in Prefixed(from, paths - {q}) ensures y in Prefixed(from, paths) - {x} {
        var r :| r in paths - {q} && y == [from] + r;
        assert y[1..] == r;
      }
      assert Prefixed(from, paths) - {x} == Prefixed(from, paths - {q});
      PathSetsRemove(Prefixed(from, paths), path, required, x);
      PathSetsPrepend(from, paths - {q}, path, required);
      PathSetsRemove(paths, path + {from}, required, q);
      BeforeCons(from, q);
      assert path + Before(x) == path + {from} + Before(q);
    }
  }

  /** `find_paths` reports the node set of each simple path once: its
      result is exactly the node sets of `SimplePaths`, with multiplicity. */
  lemma {:induction false} FindPathsCounts(devices: Devices, from: string, to: string, path: set<string>,
                                           required: set<string>)
    ensures Found(FindPaths(devices, from, to, path, required)) == PathSets(SimplePaths(devices, from, to, path), path, required)
    decreases |devices.Keys - path|, 1
  {
    if from !in path && from == to {
      assert Before([from]) == {} && path + Before([from]) == path;
      assert SimplePaths(devices, from, to, path) == {[from]};
      PathSetsRemove({[from]}, path, required, [from]);
      assert {[from]} - {[from]} == {};
      assert PathSets({}, path, required) == multiset{};
    } else if from !in path && from in devices {
      FewerOutside(devices.Keys, path, from);
      ChildPathsCounts(devices, from, devices[from].outputs, to, path, required);
    }
  }

  /** The same for the paths gathered below the outputs of `from`. */
  lemma {:induction false} ChildPathsCounts(devices: Devices, from: string, outputs: set<string>, to: string,
                                            path: set<string>, required: set<string>)
    ensures ChildPaths(devices, outputs, to, path + {from}, required)
      == PathSets(Via(devices, from, outputs, to, path + {from}), path, required)
    decreases |devices.Keys - (path + {from})|, 2, |outputs|
  {
    var next := path + {from};
    if outputs == {} {
      assert Via(devices, from, outputs, to, next) == {};
    } else {
      var o := Pick(outputs);
      var below := SimplePaths(devices, o, to, next);
      ChildPathsCounts(devices, from, outputs - {o}, to, path, required);
      FindPathsCounts(devices, o, to, next, required);
      SimplePathsStart(devices, o, to, next);
      PathSetsPrepend(from, below, path, required);
      ViaSplit(devices, from, outputs, to, next, o);
      PathSetsUnion(Via(devices, from, outputs - {o}, to, next), Prefixed(from, below), path, required);
    }
  }

  lemma {:induction false} PathSetsCount(paths: set<seq<string>>, path: set<string>, required: set<string>, s: set<string>)
    ensures PathSets(paths, path, required)[s]
      == if required <= s then |set p | p in paths && path + Before(p) == s| else 0
    decreases |paths|
  {
    if paths == {} {
      assert (set p | p in paths && path + Before(p) == s) == {};
    } else {
      var q :| q in paths;
      PathSetsRemove(paths, path, required, q);
      PathSetsCount(paths - {q}, path, required, s);
      assert PathSets(paths, path, required)[s] == PathSets(paths - {q}, path, required)[s] + PathSet(q, path, required)[s];
      WithNodes(paths, path, s, q);
      assert PathSet(q, path, required)[s] == if required <= s && path + Before(q) == s then 1 else 0;
    }
  }

  lemma {:induction false} PathSetsSize(paths: set<seq<string>>, path: set<string>, required: set<string>)
    ensures |PathSets(paths, path, required)| == |set p | p in paths && required <= path + Before(p)|
    decreases |paths|
  {
    if paths == {} {
      assert (set p | p in paths && required <= path + Before(p)) == {};
    } else {
      var q :| q in paths;
      PathSetsRemove(paths, path, required, q);
      PathSetsSize(paths - {q}, path, required);
      WithRequired(paths, path, required, q);
    }
  }

  /** The paths with node set `s`, counted with one path `q` set apart. */
  lemma WithNodes(paths: set<seq<string>>, path: set<string>, s: set<string>, q: seq<string>)
    requires q in paths
    ensures |set p | p in paths && path + Before(p) == s|
      == |set p | p in paths - {q} && path + Before(p) == s| + if path + Before(q) == s then 1 else 0
  {
    var with := set p | p in paths && path + Before(p) == s;
    var without := set p | p in paths - {q} && path + Before(p) == s;
    if path + Before(q) == s {
      assert with == without + {q};
    } else {
      assert with == without;
    }
  }

  /** The paths holding the required nodes, counted with `q` set apart. */
  lemma WithRequired(paths: set<seq<string>>, path: set<string>, required: set<string>, q: seq<string>)
    requires q in paths
    ensures |set p | p in paths && required <= path + Before(p)|
      == |set p | p in paths - {q} && required <= path + Before(p)| + if required <= path + Before(q) then 1 else 0
  {
    var with := set p | p in paths && required <= path + Before(p);
    var without := set p | p in paths - {q} && required <= path + Before(p);
    if required <= path + Before(q) {
      assert with == without + {q};
    } else {
      assert with == without;
    }
  }

  /** A node set is reported once for each simple path with those nodes,
      when it holds the required ones, and never otherwise. */
  lemma FindPathsMultiplicity(devices: Devices, from: string, to: string, path: set<string>,
                              required: set<string>, s: set<string>)
    ensures Found(FindPaths(devices, from, to, path, required))[s]
      == if required <= s then |set p | p in SimplePaths(devices, from, to, path) && path + Before(p) == s| else 0
  {
    FindPathsCounts(devices, from, to, path, required);
    PathSetsCount(SimplePaths(devices, from, to, path), path, required, s);
  }

  /** What part one counts: the number of entries `find_paths` reports is
      the number of simple paths whose nodes hold the required ones, and,
      with nothing required, the number of simple paths. */
  lemma FindPathsTotal(devices: Devices, from: string, to: string, path: set<string>, required: set<string>)
    ensures |Found(FindPaths(devices, from, to, path, required))|
      == |set p | p in SimplePaths(devices, from, to, path) && required <= path + Before(p)|
    ensures |Found(FindPaths(devices, from, to, {}, {}))| == |SimplePaths(devices, from, to, {})|
  {
    FindPathsCounts(devices, from, to, path, required);
    PathSetsSize(SimplePaths(devices, from, to, path), path, required);
    FindPathsCounts(devices, from, to, {}, {});
    PathSetsSize(SimplePaths(devices, from, to, {}), {}, {});
    var all := SimplePaths(devices, from, to, {});
    assert (set p | p in all && {} <= {} + Before(p)) == all;
  }

  // ---------------------------------------------------------------------
  // The graph (`Graph::new`)

  /** The devices listing `v` among their outputs. */
  function Predecessors(devices: Devices, v: string): set<string>
  {
    set u | u in devices && v in devices[u].outputs
  }

  /** The predecessors of `v` among `among`. */
  function PredecessorsIn(devices: Devices, among: set<string>, v: string): set<string>
  {
    set u | u in among && u in devices && v in devices[u].outputs
  }

  predicate Distinct(s: seq<string>)
  {
    forall i, j :: 0 <= i < j < |s| ==> s[i] != s[j]
  }

  /** The edge lists of `Graph::new`, once the devices of `done` are added:
      one list per device with outputs, listing each of them once. */
  ghost predicate EdgesOf(devices: Devices, done: set<string>, edges: map<string, seq<string>>)
    requires done <= devices.Keys
  {
    && (forall u :: u in edges <==> u in done && devices[u].outputs != {})
    && (forall u :: u in edges ==> Distinct(edges[u]) && forall x :: x in edges[u] <==> x in devices[u].outputs)
  }

  /** The in-degrees of `Graph::new`, once the devices of `done` are added:
      a count for every name some of them list, the number of those that do. */
  ghost predicate InDegreesOf(devices: Devices, done: set<string>, indegrees: map<string, nat>)
  {
    forall v :: (v in indegrees <==> PredecessorsIn(devices, done, v) != {})
      && (v in indegrees ==> indegrees[v] == |PredecessorsIn(devices, done, v)|)
  }

  /** Adding device `u` adds `u` to the predecessors of its outputs. */
  lemma PredecessorsAdd(devices: Devices, done: set<string>, u: string, v: string)
    requires u in devices && u !in done
    ensures PredecessorsIn(devices, done + {u}, v)
      == PredecessorsIn(devices, done, v) + (if v in devices[u].outputs then {u} else {})
    ensures |PredecessorsIn(devices, done + {u}, v)|
      == |PredecessorsIn(devices, done, v)| + (if v in devices[u].outputs then 1 else 0)
  {
    assert u !in PredecessorsIn(devices, done, v);
  }

  /** `Graph::new`: for every device and each of its outputs, the output
      joins the device's edge list and the output's in-degree goes up by
      one. The order of the lists follows the iteration order of the sets. */
  method GraphNew(devices: Devices) returns (edges: map<string, seq<string>>, indegrees: map<string, nat>)
    requires WellKeyed(devices)
    ensures EdgesOf(devices, devices.Keys, edges)
    ensures InDegreesOf(devices, devices.Keys, indegrees)
  {
    edges, indegrees := map[], map[];
    var remaining := devices.Keys;
    while remaining != {}
      invariant remaining <= devices.Keys
      invariant EdgesOf(devices, devices.Keys - remaining, edges)
      invariant InDegreesOf(devices, devices.Keys - remaining, indegrees)
      decreases |remaining|
    {
      var u :| u in remaining;
      edges, indegrees := AddDevice(devices, devices.Keys - remaining, u, edges, indegrees);
      MoveOne(devices.Keys, remaining, u);
      remaining := remaining - {u};
    }
    assert devices.Keys - remaining == devices.Keys;
  }

  /** Part way through adding device `u`: the outputs in `added` are in
      its edge list ... */
  ghost predicate AddingEdges(devices: Devices, done: set<string>, u: string, added: set<string>,
                              edges: map<string, seq<string>>)
    requires done <= devices.Keys && u in devices
  {
    && (forall w :: w in edges <==> (w in done && devices[w].outputs != {}) || (w == u && added != {}))
    && (forall w :: w in edges && w != u ==> Distinct(edges[w]) && forall x :: x in edges[w] <==> x in devices[w].outputs)
    && (u in edges ==> Distinct(edges[u]) && forall x :: x in edges[u] <==> x in added)
  }

  /** ... and counted in the in-degrees. */
  ghost predicate AddingDegrees(devices: Devices, done: set<string>, added: set<string>, indegrees: map<string, nat>)
  {
    forall v :: (v in indegrees <==> PredecessorsIn(devices, done, v) != {} || v in added)
      && (v in indegrees ==> indegrees[v] == |PredecessorsIn(devices, done, v)| + (if v in added then 1 else 0))
  }

  lemma AddingStarts(devices: Devices, done: set<string>, u: string,
                     edges: map<string, seq<string>>, indegrees: map<string, nat>)
    requires done <= devices.Keys && u in devices && u !in done
    requires EdgesOf(devices, done, edges) && InDegreesOf(devices, done, indegrees)
    ensures AddingEdges(devices, done, u, {}, edges) && AddingDegrees(devices, done, {}, indegrees)
  {
  }

  lemma AddingEdgesStep(devices: Devices, done: set<string>, u: string, added: set<string>, o: string,
                        edges: map<string, seq<string>>)
    requires done <= devices.Keys && u in devices && u !in done && o !in added
    requires AddingEdges(devices, done, u, added, edges)
    ensures AddingEdges(devices, done, u, added + {o}, edges[u := (if u in edges then edges[u] else []) + [o]])
  {
    var list := (if u in edges then edges[u] else []) + [o];
    assert forall x :: x in list <==> x in added + {o};
    assert Distinct(list);
  }

  lemma AddingDegreesStep(devices: Devices, done: set<string>, added: set<string>, o: string,
                          indegrees: map<string, nat>)
    requires o !in added
    requires AddingDegrees(devices, done, added, indegrees)
    ensures AddingDegrees(devices, done, added + {o}, indegrees[o := (if o in indegrees then indegrees[o] else 0) + 1])
  {
    var updated := indegrees[o := (if o in indegrees then indegrees[o] else 0) + 1];
    forall v ensures (v in updated <==> PredecessorsIn(devices, done, v) != {} || v in added + {o})
      && (v in updated ==> updated[v] == |PredecessorsIn(devices, done, v)| + (if v in added + {o} then 1 else 0))
    {
      if v == o {
        assert v in indegrees <==> PredecessorsIn(devices, done, v) != {};
      }
    }
  }

  lemma AddingEdgesEnds(devices: Devices, done: set<string>, u: string, edges: map<string, seq<string>>)
    requires done <= devices.Keys && u in devices && u !in done
    requires AddingEdges(devices, done, u, devices[u].outputs, edges)
    ensures EdgesOf(devices, done + {u}, edges)
  {
  }

  lemma AddingDegreesEnds(devices: Devices, done: set<string>, u: string, indegrees: map<string, nat>)
    requires u in devices && u !in done
    requires AddingDegrees(devices, done, devices[u].outputs, indegrees)
    ensures InDegreesOf(devices, done + {u}, indegrees)
  {
    forall v ensures (v in indegrees <==> PredecessorsIn(devices, done + {u}, v) != {})
      && (v in indegrees ==> indegrees[v] == |PredecessorsIn(devices, done + {u}, v)|)
    {
      PredecessorsAdd(devices, done, u, v);
    }
  }

  /** Moving one element out of `remaining` moves it into `all - remaining`. */
  lemma MoveOne<T>(all: set<T>, remaining: set<T>, x: T)
    requires x in remaining && x in all
    ensures all - remaining + {x} == all - (remaining - {x})
  {
  }

  /** The outputs of one device added to the graph. */
  method AddDevice(devices: Devices, done: set<string>, u: string, edges: map<string, seq<string>>,
                   indegrees: map<string, nat>)
    returns (newEdges: map<string, seq<string>>, newIndegrees: map<string, nat>)
    requires done <= devices.Keys && u in devices && u !in done
    requires EdgesOf(devices, done, edges) && InDegreesOf(devices, done, indegrees)
    ensures EdgesOf(devices, done + {u}, newEdges) && InDegreesOf(devices, done + {u}, newIndegrees)
  {
    newEdges, newIndegrees := edges, indegrees;
    var outputs := devices[u].outputs;
    var remaining := outputs;
    AddingStarts(devices, done, u, edges, indegrees);
    while remaining != {}
      invariant remaining <= outputs
      invariant AddingEdges(devices, done, u, outputs - remaining, newEdges)
      invariant AddingDegrees(devices, done, outputs - remaining, newIndegrees)
      decreases |remaining|
    {
      var o :| o in remaining;
      AddingEdgesStep(devices, done, u, outputs - remaining, o, newEdges);
      AddingDegreesStep(devices, done, outputs - remaining, o, newIndegrees);
      newEdges := newEdges[u := (if u in newEdges then newEdges[u] else []) + [o]];
      newIndegrees := newIndegrees[o := (if o in newIndegrees then newIndegrees[o] else 0) + 1];
      MoveOne(outputs, remaining, o);
      remaining := remaining - {o};
    }
    AddingEdgesEnds(devices, done, u, newEdges);
    AddingDegreesEnds(devices, done, u, newIndegrees);
  }

  // ---------------------------------------------------------------------
  // Topological order (`topological_sort`)

  /** The names of the devices in `s`. */
  function Names(s: seq<Device>): set<string>
  {
    set i | 0 <= i < |s| :: s[i].name
  }

  lemma NamesAppend(s: seq<Device>, d: Device)
    ensures Names(s + [d]) == Names(s) + {d.name}
  {
    assert (s + [d])[|s|] == d;
    assert forall i :: 0 <= i < |s| ==> (s + [d])[i] == s[i];
  }

  lemma NamesInit(s: seq<Device>)
    requires s != []
    ensures Names(s) == Names(s[..|s| - 1]) + {s[|s| - 1].name}
  {
    NamesAppend(s[..|s| - 1], s[|s| - 1]);
    assert s[..|s| - 1] + [s[|s| - 1]] == s;
  }

  /** `s` lists devices of `devices`, each name at most once. */
  ghost predicate Listed(devices: Devices, s: seq<Device>)
  {
    && (forall i :: 0 <= i < |s| ==> s[i].name in devices && devices[s[i].name] == s[i])
    && (forall i, j :: 0 <= i < j < |s| ==> s[i].name != s[j].name)
  }

  /** Every connection between devices of `s` goes from an earlier one to a later one. */
  ghost predicate Forward(s: seq<Device>)
  {
    forall i, j :: 0 <= i < |s| && 0 <= j < |s| && s[j].name in s[i].outputs ==> i < j
  }

  /** `s` lists every device once, each before all the devices it outputs to. */
  ghost predicate TopologicalOrder(devices: Devices, s: seq<Device>)
  {
    Listed(devices, s) && Names(s) == devices.Keys && Forward(s)
  }

  /** The edge lists once the devices of `done` have released theirs. */
  ghost predicate EdgesLeft(devices: Devices, done: set<string>, edges: map<string, seq<string>>)
  {
    && (forall u :: u in edges <==> u in devices && devices[u].outputs != {})
    && (forall u :: u in edges && u !in done ==>
          Distinct(edges[u]) && forall x :: x in edges[u] <==> x in devices[u].outputs)
    && (forall u :: u in edges && u in done ==> edges[u] == [])
  }

  /** The in-degrees once the devices of `done` have released their edges:
      the number of predecessors outside `done`. */
  ghost predicate Degrees(devices: Devices, done: set<string>, indegrees: map<string, nat>)
  {
    forall v :: (v in indegrees <==> Predecessors(devices, v) != {})
      && (v in indegrees ==> indegrees[v] == |Predecessors(devices, v) - done|)
  }

  /** `s` holds devices of `devices`, under distinct names. */
  ghost predicate Stacked(devices: Devices, s: seq<Device>)
  {
    (forall i :: 0 <= i < |s| ==> s[i].name in devices && devices[s[i].name] == s[i]) && |Names(s)| == |s|
  }

  /** The start nodes: the devices not yet sorted all of whose predecessors are. */
  ghost predicate Start(devices: Devices, done: set<string>, start: seq<Device>)
  {
    Stacked(devices, start)
      && forall v {:trigger v in Names(start)} ::
           v in Names(start) <==> v in devices && v !in done && Predecessors(devices, v) <= done
  }

  /** Every predecessor of a device of `done` is in `done`. */
  ghost predicate PredecessorClosed(devices: Devices, done: set<string>)
  {
    forall x {:trigger Predecessors(devices, x)} :: x in done ==> Predecessors(devices, x) <= done
  }

  /** While device `n` releases its edges: the predecessors that count as
      released for `v`, once the outputs in `released` are popped. */
  function Cleared(done: set<string>, n: string, released: set<string>, v: string): set<string>
  {
    if v in released then done + {n} else done
  }

  ghost predicate DegreesLeft(devices: Devices, done: set<string>, n: string, released: set<string>,
                              indegrees: map<string, nat>)
  {
    forall v :: (v in indegrees <==> Predecessors(devices, v) != {})
      && (v in indegrees ==> indegrees[v] == |Predecessors(devices, v) - Cleared(done, n, released, v)|)
  }

  ghost predicate StartLeft(devices: Devices, done: set<string>, n: string, released: set<string>,
                            start: seq<Device>)
  {
    Stacked(devices, start)
      && forall v {:trigger v in Names(start)} :: v in Names(start) <==>
           v in devices && v != n && v !in done && Predecessors(devices, v) <= Cleared(done, n, released, v)
  }

  /** The outputs of device `n` are devices, under their own names,
      neither `n` itself nor sorted yet. */
  ghost predicate OutputsReady(devices: Devices, done: set<string>, n: string)
  {
    n in devices && n !in done
      && forall x :: x in devices[n].outputs ==> x in devices && devices[x].name == x && x != n && x !in done
  }

  lemma StackedPush(devices: Devices, s: seq<Device>, d: Device)
    requires Stacked(devices, s) && d.name in devices && devices[d.name] == d && d.name !in Names(s)
    ensures Stacked(devices, s + [d])
  {
    NamesAppend(s, d);
    assert forall i :: 0 <= i < |s| ==> (s + [d])[i] == s[i];
  }

  lemma RemoveOne<T>(s: set<T>, x: T)
    requires x in s
    ensures |s - {x}| == |s| - 1
  {
  }

  /** Popping edge `n -> next` finds a positive in-degree for `next`, one
      more than the count of its predecessors left once `n` is cleared. */
  lemma DegreeDrops(devices: Devices, done: set<string>, n: string, released: set<string>, next: string,
                    indegrees: map<string, nat>)
    requires n in devices && n !in done && next in devices[n].outputs && next !in released
    requires DegreesLeft(devices, done, n, released, indegrees)
    ensures next in indegrees && indegrees[next] >= 1
    ensures indegrees[next] - 1 == |Predecessors(devices, next) - (done + {n})|
  {
    var before := Predecessors(devices, next) - done;
    assert n in before;
    assert Predecessors(devices, next) - (done + {n}) == before - {n};
    RemoveOne(before, n);
  }

  /** Popping edge `n -> next` lowers the in-degree of `next` by one, to zero
      exactly when every predecessor of `next` has been sorted. */
  lemma DegreesStep(devices: Devices, done: set<string>, n: string, released: set<string>, next: string,
                    indegrees: map<string, nat>)
    requires n in devices && n !in done && next in devices[n].outputs && next !in released
    requires DegreesLeft(devices, done, n, released, indegrees)
    ensures next in indegrees && indegrees[next] >= 1
    ensures DegreesLeft(devices, done, n, released + {next}, indegrees[next := indegrees[next] - 1])
    ensures indegrees[next] - 1 == 0 <==> Predecessors(devices, next) <= done + {n}
  {
    DegreeDrops(devices, done, n, released, next, indegrees);
    var updated := indegrees[next := indegrees[next] - 1];
    forall v ensures (v in updated <==> Predecessors(devices, v) != {})
      && (v in updated ==> updated[v] == |Predecessors(devices, v) - Cleared(done, n, released + {next}, v)|)
    {
      if v != next {
        assert Cleared(done, n, released + {next}, v) == Cleared(done, n, released, v);
      }
    }
  }


  lemma StartStep(devices: Devices, done: set<string>, n: string, released: set<string>, next: string,
                  start: seq<Device>)
    requires OutputsReady(devices, done, n) && next in devices[n].outputs && next !in released
    requires StartLeft(devices, done, n, released, start)
    ensures StartLeft(devices, done, n, released + {next},
                      if Predecessors(devices, next) <= done + {n} then start + [devices[next]] else start)
  {
    assert n in Predecessors(devices, next);
    assert next !in Names(start);
    var newStart := if Predecessors(devices, next) <= done + {n} then start + [devices[next]] else start;
    if Predecessors(devices, next) <= done + {n} {
      StackedPush(devices, start, devices[next]);
      NamesAppend(start, devices[next]);
    }
    forall v ensures v in Names(newStart) <==>
      v in devices && v != n && v !in done && Predecessors(devices, v) <= Cleared(done, n, released + {next}, v)
    {
      if v != next {
        assert Cleared(done, n, released + {next}, v) == Cleared(done, n, released, v);
      }
    }
  }

  /** The elements of `list` from index `m` on. */
  function Suffix(list: seq<string>, m: nat): set<string>
  {
    set k | m <= k < |list| :: list[k]
  }

  lemma SuffixGrows(list: seq<string>, m: nat)
    requires 0 < m <= |list|
    ensures Suffix(list, m - 1) == Suffix(list, m) + {list[m - 1]}
  {
  }

  lemma SuffixAll(list: seq<string>)
    ensures forall x :: x in Suffix(list, 0) <==> x in list
  {
    forall x | x in list ensures x in Suffix(list, 0)
    {
      var k :| 0 <= k < |list| && list[k] == x;
    }
  }

  lemma ReleaseEdges(devices: Devices, done: set<string>, n: string, edges: map<string, seq<string>>)
    requires n in edges && EdgesLeft(devices, done, edges)
    ensures EdgesLeft(devices, done + {n}, edges[n := []])
  {
  }

  /** What holds of device `n` when it starts releasing its edges: it has
      just been sorted after all its predecessors. */
  ghost predicate Releasing(devices: Devices, done: set<string>, n: string)
  {
    && WellKeyed(devices) && Closed(devices)
    && n in devices && n !in done
    && Predecessors(devices, n) <= done
    && PredecessorClosed(devices, done)
  }

  lemma ReadyOutputs(devices: Devices, done: set<string>, n: string)
    requires Releasing(devices, done, n)
    ensures OutputsReady(devices, done, n)
  {
    forall x | x in devices[n].outputs
      ensures x in devices && devices[x].name == x && x != n && x !in done
    {
      assert n in Predecessors(devices, x);
    }
  }

  /** The inner loop of `topological_sort`: device `n`, just sorted, pops
      its edges one by one, lowering the in-degree of each output and
      pushing the outputs whose in-degree reaches zero. */
  method Release(devices: Devices, ghost done: set<string>, n: string, edges: map<string, seq<string>>,
                 indegrees: map<string, nat>, start: seq<Device>)
    returns (newEdges: map<string, seq<string>>, newIndegrees: map<string, nat>, newStart: seq<Device>)
    requires Releasing(devices, done, n)
    requires EdgesLeft(devices, done, edges)
    requires DegreesLeft(devices, done, n, {}, indegrees)
    requires StartLeft(devices, done, n, {}, start)
    ensures EdgesLeft(devices, done + {n}, newEdges)
    ensures DegreesLeft(devices, done, n, devices[n].outputs, newIndegrees)
    ensures StartLeft(devices, done, n, devices[n].outputs, newStart)
  {
    if n in edges {
      var list := edges[n];
      assert Suffix(list, |list|) == {};
      ReadyOutputs(devices, done, n);
      AllPopFacts(devices, done, n, list, indegrees, start);
      newEdges, newIndegrees, newStart := PopEdges(devices, n, list, edges, indegrees, start);
      PoppedInvariant(devices, done, n, list, 0, indegrees, start);
      SuffixAll(list);
      assert Suffix(list, 0) == devices[n].outputs;
      ReleaseEdges(devices, done, n, edges);
    } else {
      newEdges, newIndegrees, newStart := edges, indegrees, start;
      assert devices[n].outputs == {};
    }
  }

  /** The in-degrees and the start nodes once the edges `list[m..]` of a
      device have been popped, the last one first. */
  ghost function Popped(devices: Devices, list: seq<string>, m: nat, indegrees: map<string, nat>,
                        start: seq<Device>): (map<string, nat>, seq<Device>)
    requires m <= |list|
    decreases |list| - m
  {
    if m == |list| then (indegrees, start)
    else
      var (lowered, pushed) := Popped(devices, list, m + 1, indegrees, start);
      var x := list[m];
      var d := if x in lowered && lowered[x] > 0 then lowered[x] - 1 else 0;
      (lowered[x := d], if d == 0 && x in devices then pushed + [devices[x]] else pushed)
  }

  /** What holds when device `n` starts popping its edge list `list`. */
  ghost predicate PopReady(devices: Devices, done: set<string>, n: string, list: seq<string>,
                           indegrees: map<string, nat>, start: seq<Device>)
  {
    && OutputsReady(devices, done, n)
    && Distinct(list) && (forall x :: x in list <==> x in devices[n].outputs)
    && DegreesLeft(devices, done, n, Suffix(list, |list|), indegrees)
    && StartLeft(devices, done, n, Suffix(list, |list|), start)
  }

  /** Popping keeps the in-degrees and the start nodes what they should be. */
  lemma {:induction false} PoppedInvariant(devices: Devices, done: set<string>, n: string, list: seq<string>,
                                           m: nat, indegrees: map<string, nat>, start: seq<Device>)
    requires PopReady(devices, done, n, list, indegrees, start) && m <= |list|
    ensures DegreesLeft(devices, done, n, Suffix(list, m), Popped(devices, list, m, indegrees, start).0)
    ensures StartLeft(devices, done, n, Suffix(list, m), Popped(devices, list, m, indegrees, start).1)
    decreases |list| - m
  {
    if m < |list| {
      PoppedInvariant(devices, done, n, list, m + 1, indegrees, start);
      var (lowered, pushed) := Popped(devices, list, m + 1, indegrees, start);
      var x := list[m];
      assert x !in Suffix(list, m + 1);
      SuffixGrows(list, m + 1);
      DegreesStep(devices, done, n, Suffix(list, m + 1), x, lowered);
      StartStep(devices, done, n, Suffix(list, m + 1), x, pushed);
    }
  }

  /** The edge popped as `list[k - 1]` leads to a device whose in-degree is positive. */
  ghost predicate PopFact(devices: Devices, list: seq<string>, k: nat, indegrees: map<string, nat>,
                          start: seq<Device>)
    requires 0 < k <= |list|
  {
    && list[k - 1] in devices
    && list[k - 1] in Popped(devices, list, k, indegrees, start).0
    && Popped(devices, list, k, indegrees, start).0[list[k - 1]] >= 1
  }

  lemma AllPopFacts(devices: Devices, done: set<string>, n: string, list: seq<string>,
                    indegrees: map<string, nat>, start: seq<Device>)
    requires PopReady(devices, done, n, list, indegrees, start)
    ensures forall k :: 0 < k <= |list| ==> PopFact(devices, list, k, indegrees, start)
  {
    forall k | 0 < k <= |list| ensures PopFact(devices, list, k, indegrees, start)
    {
      PoppedInvariant(devices, done, n, list, k, indegrees, start);
      assert list[k - 1] !in Suffix(list, k);
      DegreesStep(devices, done, n, Suffix(list, k), list[k - 1], Popped(devices, list, k, indegrees, start).0);
    }
  }

  /** The `while` loop popping the edge list `list` of device `n`. */
  method PopEdges(devices: Devices, n: string, list: seq<string>,
                  edges: map<string, seq<string>>, indegrees: map<string, nat>, start: seq<Device>)
    returns (newEdges: map<string, seq<string>>, newIndegrees: map<string, nat>, newStart: seq<Device>)
    requires forall k :: 0 < k <= |list| ==> PopFact(devices, list, k, indegrees, start)
    requires n in edges && edges[n] == list
    ensures newEdges == edges[n := []]
    ensures (newIndegrees, newStart) == Popped(devices, list, 0, indegrees, start)
  {
    newEdges, newIndegrees, newStart := edges, indegrees, start;
    ghost var m: nat := |list|;
    assert list[..m] == list;
    assert newEdges == edges[n := list[..m]];
    while newEdges[n] != []
      invariant m <= |list| && newEdges == edges[n := list[..m]]
      invariant (newIndegrees, newStart) == Popped(devices, list, m, indegrees, start)
      decreases m
    {
      var current := newEdges[n];
      var next := current[|current| - 1];
      assert PopFact(devices, list, m, indegrees, start);
      newIndegrees := newIndegrees[next := newIndegrees[next] - 1];
      if newIndegrees[next] == 0 {
        newStart := newStart + [devices[next]];
      }
      assert current[..|current| - 1] == list[..m - 1];
      newEdges := newEdges[n := current[..|current| - 1]];
      m := m - 1;
    }
  }

  lemma NamesCard(s: seq<Device>)
    ensures |Names(s)| <= |s|
    decreases |s|
  {
    if s != [] {
      NamesInit(s);
      NamesCard(s[..|s| - 1]);
    }
  }

  /** Popping the last device of a stack leaves a stack without its name. */
  lemma StackedPop(devices: Devices, s: seq<Device>)
    requires Stacked(devices, s) && s != []
    ensures Stacked(devices, s[..|s| - 1])
    ensures s[|s| - 1].name !in Names(s[..|s| - 1])
    ensures Names(s) == Names(s[..|s| - 1]) + {s[|s| - 1].name}
  {
    var init := s[..|s| - 1];
    NamesInit(s);
    NamesCard(init);
    assert forall i :: 0 <= i < |init| ==> init[i] == s[i];
  }

  /** `devices.values().filter(..).collect()`: the devices without an in-degree,
      in the iteration order of the map. */
  method StartNodes(devices: Devices, indegrees: map<string, nat>) returns (start: seq<Device>)
    requires WellKeyed(devices)
    ensures Stacked(devices, start)
    ensures forall v {:trigger v in Names(start)} :: v in Names(start) <==> v in devices && v !in indegrees
  {
    start := [];
    var remaining := devices.Keys;
    while remaining != {}
      invariant remaining <= devices.Keys
      invariant Stacked(devices, start)
      invariant forall v {:trigger v in Names(start)} ::
        v in Names(start) <==> v in devices.Keys - remaining && v !in indegrees
      decreases |remaining|
    {
      var k :| k in remaining;
      var device := devices[k];
      if device.name !in indegrees {
        StackedPush(devices, start, device);
        NamesAppend(start, device);
        start := start + [device];
      }
      remaining := remaining - {k};
    }
  }

  /** The invariant of the outer loop of `topological_sort`. */
  ghost predicate Sorting(devices: Devices, sorted: seq<Device>, start: seq<Device>,
                          edges: map<string, seq<string>>, indegrees: map<string, nat>)
  {
    && Listed(devices, sorted) && Forward(sorted)
    && PredecessorClosed(devices, Names(sorted))
    && EdgesLeft(devices, Names(sorted), edges)
    && Degrees(devices, Names(sorted), indegrees)
    && Start(devices, Names(sorted), start)
  }

  lemma SortingStarts(devices: Devices, edges: map<string, seq<string>>, indegrees: map<string, nat>,
                      start: seq<Device>)
    requires EdgesOf(devices, devices.Keys, edges) && InDegreesOf(devices, devices.Keys, indegrees)
    requires Stacked(devices, start)
    requires forall v {:trigger v in Names(start)} :: v in Names(start) <==> v in devices && v !in indegrees
    ensures Sorting(devices, [], start, edges, indegrees)
  {
    var none: seq<Device> := [];
    assert Names(none) == {};
    forall v ensures PredecessorsIn(devices, devices.Keys, v) == Predecessors(devices, v)
                 && Predecessors(devices, v) - {} == Predecessors(devices, v)
    {
    }
  }

  /** The device popped from the start nodes is ready to release its edges. */
  lemma PopStartReady(devices: Devices, done: set<string>, start: seq<Device>)
    requires WellKeyed(devices) && Closed(devices) && PredecessorClosed(devices, done)
    requires Start(devices, done, start) && start != []
    ensures devices[start[|start| - 1].name] == start[|start| - 1]
    ensures Releasing(devices, done, start[|start| - 1].name)
  {
    StackedPop(devices, start);
    assert start[|start| - 1].name in Names(start);
  }

  /** The start nodes left once the last one is popped. */
  lemma PopStartLeft(devices: Devices, done: set<string>, start: seq<Device>)
    requires Start(devices, done, start) && start != []
    ensures StartLeft(devices, done, start[|start| - 1].name, {}, start[..|start| - 1])
  {
    StackedPop(devices, start);
    var n := start[|start| - 1].name;
    var init := start[..|start| - 1];
    forall v {:trigger v in Names(init)}
      ensures v in Names(init) <==> v in devices && v != n && v !in done && Predecessors(devices, v) <= done
    {
      assert v in Names(start) <==> v in Names(init) || v == n;
    }
  }

  lemma DegreesNone(devices: Devices, done: set<string>, n: string, indegrees: map<string, nat>)
    requires Degrees(devices, done, indegrees)
    ensures DegreesLeft(devices, done, n, {}, indegrees)
  {
  }

  /** A device sorted after all its predecessors outputs to no device
      sorted so far, nor to itself. */
  lemma NotIntoSorted(devices: Devices, sorted: seq<Device>, d: Device)
    requires PredecessorClosed(devices, Names(sorted))
    requires d.name in devices && devices[d.name] == d && d.name !in Names(sorted)
    requires Predecessors(devices, d.name) <= Names(sorted)
    ensures forall k :: 0 <= k < |sorted + [d]| ==> (sorted + [d])[k].name !in d.outputs
  {
    forall k | 0 <= k < |sorted + [d]| ensures (sorted + [d])[k].name !in d.outputs
    {
      var v := (sorted + [d])[k].name;
      assert v in Names(sorted) + {d.name} by {
        if k < |sorted| {
          assert v == sorted[k].name;
        }
      }
      assert v in d.outputs ==> d.name in Predecessors(devices, v);
    }
  }

  /** Sorting `d` after all its predecessors keeps the sorted devices in
      topological order. */
  lemma ForwardPush(devices: Devices, sorted: seq<Device>, d: Device)
    requires Listed(devices, sorted) && Forward(sorted) && PredecessorClosed(devices, Names(sorted))
    requires d.name in devices && devices[d.name] == d && d.name !in Names(sorted)
    requires Predecessors(devices, d.name) <= Names(sorted)
    ensures Listed(devices, sorted + [d]) && Forward(sorted + [d])
  {
    var s := sorted + [d];
    assert forall i :: 0 <= i < |sorted| ==> s[i] == sorted[i];
    assert s[|sorted|] == d;
    NotIntoSorted(devices, sorted, d);
    forall i, j | 0 <= i < |s| && 0 <= j < |s| && s[j].name in s[i].outputs ensures i < j
    {
      if i == |sorted| {
        assert false;
      }
    }
  }

  lemma DegreesPush(devices: Devices, done: set<string>, n: string, indegrees: map<string, nat>)
    requires n in devices
    requires DegreesLeft(devices, done, n, devices[n].outputs, indegrees)
    ensures Degrees(devices, done + {n}, indegrees)
  {
    forall v | v in indegrees
      ensures indegrees[v] == |Predecessors(devices, v) - (done + {n})|
    {
      if v !in devices[n].outputs {
        assert Predecessors(devices, v) - done == Predecessors(devices, v) - (done + {n});
      }
    }
  }

  lemma StartPush(devices: Devices, done: set<string>, n: string, start: seq<Device>)
    requires n in devices
    requires StartLeft(devices, done, n, devices[n].outputs, start)
    ensures Start(devices, done + {n}, start)
  {
    forall v {:trigger v in Names(start)}
      ensures v in Names(start) <==> v in devices && v !in done + {n} && Predecessors(devices, v) <= done + {n}
    {
      if v !in devices[n].outputs {
        assert n !in Predecessors(devices, v);
      }
    }
  }

  /** One turn of the outer loop of `topological_sort`: the last start node
      is popped, sorted, and releases its edges. */
  method SortStep(devices: Devices, sorted: seq<Device>, start: seq<Device>,
                  edges: map<string, seq<string>>, indegrees: map<string, nat>)
    returns (newSorted: seq<Device>, newStart: seq<Device>,
             newEdges: map<string, seq<string>>, newIndegrees: map<string, nat>)
    requires WellKeyed(devices) && Closed(devices)
    requires Sorting(devices, sorted, start, edges, indegrees) && start != []
    ensures Sorting(devices, newSorted, newStart, newEdges, newIndegrees)
    ensures newSorted == sorted + [start[|start| - 1]]
    ensures |devices.Keys - Names(newSorted)| < |devices.Keys - Names(sorted)|
  {
    var device := start[|start| - 1];
    ghost var done := Names(sorted);
    PopStartReady(devices, done, start);
    PopStartLeft(devices, done, start);
    DegreesNone(devices, done, device.name, indegrees);
    newSorted := sorted + [device];
    newEdges, newIndegrees, newStart :=
      Release(devices, done, device.name, edges, indegrees, start[..|start| - 1]);
    SortingPush(devices, sorted, device, newStart, newEdges, newIndegrees);
    NamesAppend(sorted, device);
    MinusAdd(devices.Keys, done, device.name);
    RemoveOne(devices.Keys - done, device.name);
  }

  /** The sorted devices grown by `d`, once `d` has released its edges. */
  lemma SortingPush(devices: Devices, sorted: seq<Device>, d: Device, start: seq<Device>,
                    edges: map<string, seq<string>>, indegrees: map<string, nat>)
    requires Listed(devices, sorted) && Forward(sorted)
    requires Releasing(devices, Names(sorted), d.name) && devices[d.name] == d
    requires EdgesLeft(devices, Names(sorted) + {d.name}, edges)
    requires DegreesLeft(devices, Names(sorted), d.name, devices[d.name].outputs, indegrees)
    requires StartLeft(devices, Names(sorted), d.name, devices[d.name].outputs, start)
    ensures Sorting(devices, sorted + [d], start, edges, indegrees)
  {
    NamesAppend(sorted, d);
    ForwardPush(devices, sorted, d);
    DegreesPush(devices, Names(sorted), d.name, indegrees);
    StartPush(devices, Names(sorted), d.name, start);
    assert PredecessorClosed(devices, Names(sorted) + {d.name}) by {
      forall x {:trigger Predecessors(devices, x)} | x in Names(sorted) + {d.name}
        ensures Predecessors(devices, x) <= Names(sorted) + {d.name}
      {
      }
    }
  }

  lemma MinusAdd<T>(a: set<T>, b: set<T>, x: T)
    ensures a - (b + {x}) == (a - b) - {x}
  {
  }

  /** The first device of `order` whose name is in `s`. */
  lemma FirstIn(order: seq<Device>, s: set<string>) returns (i: nat)
    requires exists k :: 0 <= k < |order| && order[k].name in s
    ensures i < |order| && order[i].name in s
    ensures forall k :: 0 <= k < i ==> order[k].name !in s
  {
    var last :| 0 <= last < |order| && order[last].name in s;
    i := 0;
    while order[i].name !in s
      invariant i <= last
      invariant forall k :: 0 <= k < i ==> order[k].name !in s
      decreases last - i
    {
      i := i + 1;
    }
  }

  /** In a topological order every predecessor of a device comes before it. */
  lemma EarlierPredecessor(devices: Devices, order: seq<Device>, i: nat, u: string) returns (j: nat)
    requires TopologicalOrder(devices, order)
    requires i < |order| && u in devices && order[i].name in devices[u].outputs
    ensures j < i && order[j].name == u
  {
    assert u in Names(order);
    j :| 0 <= j < |order| && order[j].name == u;
    assert order[j] == devices[u];
  }

  /** In a topological order, every nonempty set of devices has a member
      that no member of the set outputs to: the first one in the order. */
  lemma SourceIn(devices: Devices, s: set<string>, order: seq<Device>) returns (v: string)
    requires TopologicalOrder(devices, order)
    requires s != {} && s <= devices.Keys
    ensures v in s && forall u :: u in s ==> v !in devices[u].outputs
  {
    var w :| w in s;
    assert w in Names(order);
    var i := FirstIn(order, s);
    v := order[i].name;
    forall u | u in s ensures v !in devices[u].outputs
    {
      if v in devices[u].outputs {
        var j := EarlierPredecessor(devices, order, i, u);
        assert false;
      }
    }
  }

  /** A nonempty set of devices each of which has a predecessor inside the
      set lies on a cycle: no order puts every device after its predecessors. */
  lemma NoOrder(devices: Devices, s: set<string>, order: seq<Device>)
    requires s != {} && s <= devices.Keys
    requires forall v :: v in s ==> exists u :: u in s && v in devices[u].outputs
    ensures !TopologicalOrder(devices, order)
  {
    if TopologicalOrder(devices, order) {
      var v := SourceIn(devices, s, order);
      assert false;
    }
  }

  /** When no start node is left, either every edge is released and the
      sorted devices are in topological order, or some edge is left and the
      devices not sorted lie on a cycle. */
  lemma EndsSorted(devices: Devices, sorted: seq<Device>, edges: map<string, seq<string>>)
    requires Listed(devices, sorted) && Forward(sorted)
    requires EdgesLeft(devices, Names(sorted), edges) && Start(devices, Names(sorted), [])
    ensures (forall u :: u in edges ==> edges[u] == []) ==> TopologicalOrder(devices, sorted)
  {
    if devices.Keys - Names(sorted) != {} {
      CycleLeft(devices, Names(sorted));
      RestHasEdge(devices, Names(sorted), edges);
    } else {
      assert Names(sorted) <= devices.Keys;
    }
  }

  lemma EndsOnCycle(devices: Devices, sorted: seq<Device>, edges: map<string, seq<string>>)
    requires EdgesLeft(devices, Names(sorted), edges) && Start(devices, Names(sorted), [])
    ensures (exists u :: u in edges && edges[u] != []) ==> forall order :: !TopologicalOrder(devices, order)
  {
    var rest := devices.Keys - Names(sorted);
    if rest != {} {
      CycleLeft(devices, Names(sorted));
      forall order ensures !TopologicalOrder(devices, order)
      {
        NoOrder(devices, rest, order);
      }
    } else {
      NoEdgeLeft(devices, Names(sorted), edges);
    }
  }

  /** Once every device is sorted, every edge list is empty. */
  lemma NoEdgeLeft(devices: Devices, done: set<string>, edges: map<string, seq<string>>)
    requires EdgesLeft(devices, done, edges) && devices.Keys - done == {}
    ensures forall u :: u in edges ==> edges[u] == []
  {
    forall u | u in edges ensures edges[u] == []
    {
      assert u in devices.Keys && u !in devices.Keys - done;
    }
  }

  /** A device not sorted that outputs to another still has its edges. */
  lemma RestHasEdge(devices: Devices, done: set<string>, edges: map<string, seq<string>>)
    requires EdgesLeft(devices, done, edges) && devices.Keys - done != {}
    requires forall v :: v in devices.Keys - done ==> exists u :: u in devices.Keys - done && v in devices[u].outputs
    ensures exists u :: u in edges && edges[u] != []
  {
    var v :| v in devices.Keys - done;
    var u :| u in devices.Keys - done && v in devices[u].outputs;
    assert u in edges && v in edges[u];
  }

  /** With no start node left, each device not sorted has a predecessor not sorted. */
  lemma CycleLeft(devices: Devices, done: set<string>)
    requires Start(devices, done, [])
    ensures forall v :: v in devices.Keys - done ==> exists u :: u in devices.Keys - done && v in devices[u].outputs
  {
    var none: seq<Device> := [];
    assert Names(none) == {};
    forall v | v in devices.Keys - done ensures exists u :: u in devices.Keys - done && v in devices[u].outputs
    {
      assert v !in Names(none);
      var u :| u in Predecessors(devices, v) && u !in done;
      assert u in devices.Keys - done;
    }
  }

  /** `topological_sort`: Kahn's algorithm. The source pops start nodes from
      the end of a vector; `Err(GraphIsNotADag)` when an edge is left. */
  method TopologicalSort(devices: Devices) returns (r: Result<seq<Device>, PathFindingError>)
    requires WellKeyed(devices) && Closed(devices)
    ensures r.Ok? ==> TopologicalOrder(devices, r.value)
    ensures r.Err? ==> r.error == GraphIsNotADag && forall order :: !TopologicalOrder(devices, order)
  {
    var edges, indegrees := GraphNew(devices);
    var sorted: seq<Device> := [];
    var start := StartNodes(devices, indegrees);
    SortingStarts(devices, edges, indegrees, start);
    while start != []
      invariant Sorting(devices, sorted, start, edges, indegrees)
      decreases |devices.Keys - Names(sorted)|
    {
      sorted, start, edges, indegrees := SortStep(devices, sorted, start, edges, indegrees);
    }
    EndsSorted(devices, sorted, edges);
    EndsOnCycle(devices, sorted, edges);
    if exists u :: u in edges && edges[u] != [] {
      r := Err(GraphIsNotADag);
    } else {
      r := Ok(sorted);
    }
  }

  // ---------------------------------------------------------------------
  // Counting paths (`find_n_paths`)

  /** `ways.get(v)`, with 0 for a name never reached. */
  function Lookup(ways: map<string, nat>, v: string): nat
  {
    if v in ways then ways[v] else 0
  }

  /** `amount` added to the count of every name in `outs`. */
  function AddTo(ways: map<string, nat>, outs: set<string>, amount: nat): map<string, nat>
  {
    map v | v in ways.Keys + outs :: Lookup(ways, v) + (if v in outs then amount else 0)
  }

  /** One node of the loop: its count is entered (0 if absent) and added to
      each of its outputs. */
  function Step(ways: map<string, nat>, node: Device): map<string, nat>
  {
    AddTo(ways[node.name := Lookup(ways, node.name)], node.outputs, Lookup(ways, node.name))
  }

  /** The counts once the first `k` nodes of `order` are processed. */
  function Ways(order: seq<Device>, start: string, k: nat): map<string, nat>
    requires k <= |order|
  {
    if k == 0 then map[start := 1] else Step(Ways(order, start, k - 1), order[k - 1])
  }

  /** The result of `find_n_paths`. */
  function NPaths(order: seq<Device>, start: string, out: string): nat
  {
    Lookup(Ways(order, start, |order|), out)
  }

  /** `r` is `ways` with `amount` added to the names of `added`, pointwise. */
  ghost predicate Added(ways: map<string, nat>, added: set<string>, amount: nat, r: map<string, nat>)
  {
    && (forall v :: v in r <==> (v in ways || v in added))
    && forall v :: v in r ==> r[v] == Lookup(ways, v) + (if v in added then amount else 0)
  }

  lemma AddedIsAddTo(ways: map<string, nat>, added: set<string>, amount: nat, r: map<string, nat>)
    requires Added(ways, added, amount, r)
    ensures r == AddTo(ways, added, amount)
  {
  }

  lemma AddedStep(ways: map<string, nat>, added: set<string>, o: string, amount: nat, r: map<string, nat>)
    requires o !in added && Added(ways, added, amount, r)
    ensures Added(ways, added + {o}, amount, r[o := Lookup(r, o) + amount])
  {
  }

  /** The inner loop of `find_n_paths`, over the outputs in hash order. */
  method AddWays(ways: map<string, nat>, outs: set<string>, amount: nat) returns (r: map<string, nat>)
    ensures r == AddTo(ways, outs, amount)
  {
    r := ways;
    var remaining := outs;
    ghost var added: set<string> := {};
    while remaining != {}
      invariant forall v :: v in outs <==> (v in added || v in remaining)
      invariant added !! remaining
      invariant Added(ways, added, amount, r)
      decreases |remaining|
    {
      var o :| o in remaining;
      AddedStep(ways, added, o, amount, r);
      r := r[o := Lookup(r, o) + amount];
      added, remaining := added + {o}, remaining - {o};
    }
    assert added == outs;
    AddedIsAddTo(ways, outs, amount, r);
  }

  /** `find_n_paths`: the start-to-out count, passed forward along the
      order. */
  method FindNPaths(order: seq<Device>, start: string, out: string) returns (n: nat)
    ensures n == NPaths(order, start, out)
  {
    var ways: map<string, nat> := map[start := 1];
    for i := 0 to |order|
      invariant ways == Ways(order, start, i)
    {
      var node := order[i];
      var nodeWays := if node.name in ways then ways[node.name] else 0;
      ways := ways[node.name := nodeWays];
      ways := AddWays(ways, node.outputs, nodeWays);
    }
    n := if out in ways then ways[out] else 0;
  }

  // ---------------------------------------------------------------------
  // What the counts mean

  /** What the devices before position `k` have added to the count of `v`. */
  function Contrib(order: seq<Device>, start: string, v: string, k: nat): nat
    requires k <= |order|
  {
    if k == 0 then 0
    else
      Contrib(order, start, v, k - 1)
      + (if v in order[k - 1].outputs then Lookup(Ways(order, start, k - 1), order[k - 1].name) else 0)
  }

  lemma StepLookup(ways: map<string, nat>, node: Device, v: string)
    ensures Lookup(Step(ways, node), v) == Lookup(ways, v) + (if v in node.outputs then Lookup(ways, node.name) else 0)
  {
  }

  /** A count is the start's one plus what the devices so far passed on. */
  lemma {:induction false} WaysValue(order: seq<Device>, start: string, v: string, k: nat)
    requires k <= |order|
    ensures Lookup(Ways(order, start, k), v) == (if v == start then 1 else 0) + Contrib(order, start, v, k)
    decreases k
  {
    if k > 0 {
      WaysValue(order, start, v, k - 1);
      StepLookup(Ways(order, start, k - 1), order[k - 1], v);
    }
  }

  /** Along a topological order nothing after a device adds to its count. */
  lemma {:induction false} ContribStable(order: seq<Device>, start: string, j: nat, k: nat)
    requires Forward(order) && j < |order| && j <= k <= |order|
    ensures Contrib(order, start, order[j].name, k) == Contrib(order, start, order[j].name, j)
    decreases k
  {
    if k > j {
      ContribStable(order, start, j, k - 1);
      assert order[j].name !in order[k - 1].outputs;
    }
  }

  /** The reference recurrence for the paths from `start` to the device at
      position `j`: one if it is the start, plus the counts of each device
      before it that outputs to it. */
  function PathCount(order: seq<Device>, start: string, j: nat): nat
    requires j < |order|
    decreases j, 1
  {
    (if order[j].name == start then 1 else 0) + PathsInto(order, start, j, j)
  }

  /** The paths to the devices before position `k` that output to the
      device at position `j`, extended by that last step. */
  function PathsInto(order: seq<Device>, start: string, j: nat, k: nat): nat
    requires j < |order| && k <= |order|
    decreases k, 0
  {
    if k == 0 then 0
    else
      PathsInto(order, start, j, k - 1)
      + (if order[j].name in order[k - 1].outputs then PathCount(order, start, k - 1) else 0)
  }

  lemma {:induction false} NodeWays(order: seq<Device>, start: string, i: nat)
    requires i < |order|
    ensures Lookup(Ways(order, start, i), order[i].name) == PathCount(order, start, i)
    decreases i, 1
  {
    WaysValue(order, start, order[i].name, i);
    ContribInto(order, start, i, i);
  }

  lemma {:induction false} ContribInto(order: seq<Device>, start: string, j: nat, k: nat)
    requires j < |order| && k <= |order|
    ensures Contrib(order, start, order[j].name, k) == PathsInto(order, start, j, k)
    decreases k, 0
  {
    if k > 0 {
      ContribInto(order, start, j, k - 1);
      NodeWays(order, start, k - 1);
    }
  }

  /** Along a topological order `find_n_paths` returns, for every device,
      the value of the reference recurrence at it. */
  lemma FindNPathsCounts(order: seq<Device>, start: string, j: nat)
    requires Forward(order) && j < |order|
    ensures NPaths(order, start, order[j].name) == PathCount(order, start, j)
  {
    WaysValue(order, start, order[j].name, |order|);
    ContribStable(order, start, j, |order|);
    ContribInto(order, start, j, j);
  }

  lemma {:induction false} ContribNone(order: seq<Device>, start: string, v: string, k: nat)
    requires k <= |order| && forall i :: 0 <= i < |order| ==> v !in order[i].outputs
    ensures Contrib(order, start, v, k) == 0
    decreases k
  {
    if k > 0 {
      ContribNone(order, start, v, k - 1);
    }
  }

  /** A name that is no device is reached only by the empty path from
      itself. */
  lemma NPathsOutside(devices: Devices, order: seq<Device>, start: string, out: string)
    requires TopologicalOrder(devices, order) && Closed(devices) && out !in devices
    ensures NPaths(order, start, out) == if out == start then 1 else 0
  {
    forall i | 0 <= i < |order| ensures out !in order[i].outputs {
      assert order[i].name in devices && devices[order[i].name] == order[i];
    }
    WaysValue(order, start, out, |order|);
    ContribNone(order, start, out, |order|);
  }

  /** A path to the device at `j` comes from the start at or before `j`. */
  lemma {:induction false} PathCountReached(order: seq<Device>, start: string, j: nat) returns (i: nat)
    requires j < |order| && PathCount(order, start, j) > 0
    ensures i <= j && order[i].name == start
    decreases j, 1
  {
    if order[j].name == start {
      i := j;
    } else {
      i := PathsIntoReached(order, start, j, j);
    }
  }

  lemma {:induction false} PathsIntoReached(order: seq<Device>, start: string, j: nat, k: nat) returns (i: nat)
    requires j < |order| && k <= |order| && PathsInto(order, start, j, k) > 0
    ensures i < k && order[i].name == start
    decreases k, 0
  {
    if PathsInto(order, start, j, k - 1) > 0 {
      i := PathsIntoReached(order, start, j, k - 1);
    } else {
      i := PathCountReached(order, start, k - 1);
    }
  }

  /** The position of a device in a topological order. */
  lemma Position(devices: Devices, order: seq<Device>, v: string) returns (j: nat)
    requires TopologicalOrder(devices, order) && v in devices
    ensures j < |order| && order[j].name == v
  {
    assert v in Names(order);
    var k :| 0 <= k < |order| && order[k].name == v;
    j := k;
  }

  /** Paths between two different names run between two devices, from an
      earlier one to a later one. */
  lemma Reaching(devices: Devices, order: seq<Device>, from: string, to: string) returns (i: nat, j: nat)
    requires TopologicalOrder(devices, order) && Closed(devices)
    requires from != to && NPaths(order, from, to) > 0
    ensures i < j < |order| && order[i].name == from && order[j].name == to
  {
    if to !in devices {
      NPathsOutside(devices, order, from, to);
    }
    j := Position(devices, order, to);
    FindNPathsCounts(order, from, j);
    i := PathCountReached(order, from, j);
  }

  /** In a DAG two different devices are not connected both ways. */
  lemma OneWay(devices: Devices, order: seq<Device>, a: string, b: string)
    requires TopologicalOrder(devices, order) && Closed(devices) && a != b
    ensures NPaths(order, a, b) == 0 || NPaths(order, b, a) == 0
  {
    if NPaths(order, a, b) > 0 && NPaths(order, b, a) > 0 {
      var i, j := Reaching(devices, order, a, b);
      var k, l := Reaching(devices, order, b, a);
    }
  }

  /** From a name to itself there is exactly the empty path. */
  lemma SelfPaths(devices: Devices, order: seq<Device>, v: string)
    requires TopologicalOrder(devices, order) && Closed(devices)
    ensures NPaths(order, v, v) == 1
  {
    if v in devices {
      var j := Position(devices, order, v);
      FindNPathsCounts(order, v, j);
      if PathsInto(order, v, j, j) > 0 {
        var i := PathsIntoReached(order, v, j, j);
      }
    } else {
      NPathsOutside(devices, order, v, v);
    }
  }

  // ---------------------------------------------------------------------
  // Two intermediate steps (`find_n_paths_with_2_intermediate_steps`)

  /** The product of three counts. */
  function Mul3(a: nat, b: nat, c: nat): nat
  {
    a * b * c
  }

  /** Paths through `step1` then `step2` if any path joins them that way,
      else through `step2` then `step1`. */
  function TwoStep(order: seq<Device>, start: string, end: string, step1: string, step2: string): nat
  {
    var forth := NPaths(order, step1, step2);
    if forth > 0 then Mul3(NPaths(order, start, step1), forth, NPaths(order, step2, end))
    else Mul3(NPaths(order, start, step2), NPaths(order, step2, step1), NPaths(order, step1, end))
  }

  method FindNPathsWithTwoSteps(order: seq<Device>, start: string, end: string, step1: string, step2: string)
    returns (n: nat)
    ensures n == TwoStep(order, start, end, step1, step2)
  {
    var forth := FindNPaths(order, step1, step2);
    if forth > 0 {
      var before := FindNPaths(order, start, step1);
      var after := FindNPaths(order, step2, end);
      n := Mul3(before, forth, after);
    } else {
      var before := FindNPaths(order, start, step2);
      var back := FindNPaths(order, step2, step1);
      var after := FindNPaths(order, step1, end);
      n := Mul3(before, back, after);
    }
  }

  /** In a DAG the choice of order in `TwoStep` loses nothing: for two
      different steps it is the sum over both orders, and for one step
      visited twice it is the paths through that step. */
  lemma TwoStepEitherOrder(devices: Devices, order: seq<Device>, start: string, end: string, step1: string, step2: string)
    requires TopologicalOrder(devices, order) && Closed(devices)
    ensures step1 != step2 ==>
      TwoStep(order, start, end, step1, step2)
      == Mul3(NPaths(order, start, step1), NPaths(order, step1, step2), NPaths(order, step2, end))
       + Mul3(NPaths(order, start, step2), NPaths(order, step2, step1), NPaths(order, step1, end))
    ensures step1 == step2 ==>
      TwoStep(order, start, end, step1, step2) == NPaths(order, start, step1) * NPaths(order, step1, end)
  {
    if step1 != step2 {
      OneWay(devices, order, step1, step2);
    } else {
      SelfPaths(devices, order, step1);
    }
  }
}

