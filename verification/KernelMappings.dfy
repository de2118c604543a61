/** One kernel mapping per kernel: what the KMM module is given for the selected
    nodes, and what each node's driver image then says about its version. */
module KernelMappings {
  import opened Base
  import opened ImageTags

  /** The driver section of a DeviceConfig; an empty version or image asks for
      the default. */
  datatype DriverSpec = DriverSpec(version: string, image: string, driverType: string)

  /** Defaults that depend on the platform; on OpenShift the version default is
      one constant, elsewhere it comes from the node's OS. */
  datatype Platform = Platform(openshift: bool, defaultVersion: string, defaultImage: string)

  /** os and osVersion: what is derived from the node's OS image, None for an
      unsupported one. */
  datatype Node = Node(kernel: string, os: Option<string>, osVersion: Option<string>)

  /** A kernel mapping's literal: a kernel without the '+' of a dirty build. */
  datatype Literal = Literal(text: string)

  datatype Mapping = Mapping(literal: Literal, image: string)
  datatype Built = Built(mapping: Mapping, version: string)

  function TrimPlus(kernel: string): string {
    if HasSuffix(kernel, "+") then kernel[..|kernel| - 1] else kernel
  }

  /** Two kernels share a literal exactly when they are equal or one is the dirty
      build of the other. */
  lemma SameLiteralIff(a: string, b: string)
    ensures TrimPlus(a) == TrimPlus(b) <==>
              || a == b
              || (a == b + "+" && !HasSuffix(b, "+"))
              || (b == a + "+" && !HasSuffix(a, "+"))
  {
    assert HasSuffix(a, "+") ==> a == TrimPlus(a) + "+";
    assert HasSuffix(b, "+") ==> b == TrimPlus(b) + "+";
    assert (b + "+")[..|b|] == b && (a + "+")[..|a|] == a;
  }

  function LiteralOf(node: Node): Literal {
    Literal(TrimPlus(node.kernel))
  }

  function VersionFor(spec: DriverSpec, p: Platform, node: Node): Option<string> {
    if spec.version != "" then Some(spec.version)
    else if p.openshift then Some(p.defaultVersion)
    else node.osVersion
  }

  /** getKM: the literal, the image and the version, or None when the node's OS
      has no name or no default version. */
  function BuildMapping(spec: DriverSpec, p: Platform, node: Node): Option<Built> {
    var version := VersionFor(spec, p, node);
    if node.os.None? || version.None? then None else
    var image := if spec.image == "" then p.defaultImage else spec.image;
    Some(Built(
      Mapping(LiteralOf(node), ImageWithTag(image, node.os.value, spec.driverType, version.value)),
      version.value))
  }

  /** A node gets a mapping exactly when its OS is supported and a version is named by
      the spec, by the platform or by the OS; the mapping is for its kernel, clean or
      dirty, and its image is the one of the spec, or the default. */
  lemma BuildsIff(spec: DriverSpec, p: Platform, node: Node)
    ensures var b := BuildMapping(spec, p, node);
            && (b.Some? <==> node.os.Some? && (spec.version != "" || p.openshift || node.osVersion.Some?))
            && (b.Some? ==>
                  && (spec.version != "" ==> b.value.version == spec.version)
                  && (spec.version == "" && p.openshift ==> b.value.version == p.defaultVersion)
                  && (spec.version == "" && !p.openshift ==> Some(b.value.version) == node.osVersion)
                  && node.kernel in {b.value.mapping.literal.text, b.value.mapping.literal.text + "+"}
                  && HasPrefix(b.value.mapping.image, (if spec.image != "" then spec.image else p.defaultImage) + ":"))
  {
    var b := BuildMapping(spec, p, node);
    if b.Some? {
      var name := if spec.image != "" then spec.image else p.defaultImage;
      var tag := LimitTag(FullTag(node.os.value, spec.driverType, b.value.version));
      assert b.value.mapping.image == name + ":" + tag;
      assert HasSuffix(node.kernel, "+") ==> node.kernel == TrimPlus(node.kernel) + "+";
    }
  }

  /** What getKM returns for each node. */
  function BuildAll(spec: DriverSpec, p: Platform, nodes: seq<Node>): (built: seq<Option<Built>>)
    ensures |built| == |nodes|
    ensures forall i :: 0 <= i < |nodes| ==> built[i] == BuildMapping(spec, p, nodes[i])
  {
    if nodes == [] then [] else [BuildMapping(spec, p, nodes[0])] + BuildAll(spec, p, nodes[1..])
  }

  predicate BuildsFor(b: Option<Built>, k: Literal) {
    b.Some? && b.value.mapping.literal == k
  }

  ghost predicate SomeBuilds(built: seq<Option<Built>>, upTo: nat, k: Literal)
    requires upTo <= |built|
  {
    exists i :: 0 <= i < upTo && BuildsFor(built[i], k)
  }

  /** The first node in order that builds a mapping for its literal. */
  ghost predicate First(built: seq<Option<Built>>, i: nat)
    requires i < |built|
  {
    built[i].Some? && !SomeBuilds(built, i, built[i].value.mapping.literal)
  }

  /** kms are the mappings of exactly the first nodes among the first upTo, in
      node order; from gives the node of each. */
  ghost predicate Kept(built: seq<Option<Built>>, upTo: nat, from: seq<nat>, kms: seq<Mapping>)
    requires upTo <= |built|
  {
    && |kms| == |from|
    && (forall j :: 0 <= j < |from| ==>
          from[j] < upTo && First(built, from[j]) && kms[j] == built[from[j]].value.mapping)
    && (forall i, j :: 0 <= i < j < |from| ==> from[i] < from[j])
    && (forall i :: 0 <= i < upTo && First(built, i) ==> i in from)
  }

  function Literals(kms: seq<Mapping>): seq<Literal> {
    if kms == [] then [] else Literals(kms[..|kms| - 1]) + [kms[|kms| - 1].literal]
  }

  lemma {:induction false} LiteralAt(kms: seq<Mapping>, j: nat)
    requires j < |kms|
    ensures |Literals(kms)| == |kms| && Literals(kms)[j] == kms[j].literal
  {
    var front := kms[..|kms| - 1];
    if front != [] {
      LiteralAt(front, if j < |front| then j else 0);
    }
  }

  lemma {:induction false} FirstExists(built: seq<Option<Built>>, i: nat) returns (f: nat)
    requires i < |built| && built[i].Some?
    ensures f <= i && First(built, f) && BuildsFor(built[f], built[i].value.mapping.literal)
    decreases i
  {
    if First(built, i) {
      return i;
    }
    var j :| 0 <= j < i && BuildsFor(built[j], built[i].value.mapping.literal);
    f := FirstExists(built, j);
  }

  /** Kept literals are pairwise distinct and are exactly the literals of the
      nodes that build. */
  lemma KeptLiterals(built: seq<Option<Built>>, upTo: nat, from: seq<nat>, kms: seq<Mapping>)
    requires upTo <= |built| && Kept(built, upTo, from, kms)
    ensures Distinct(Literals(kms))
    ensures forall k :: k in Literals(kms) <==> SomeBuilds(built, upTo, k)
  {
    forall j | 0 <= j < |kms|
      ensures |Literals(kms)| == |kms| && Literals(kms)[j] == kms[j].literal
    {
      LiteralAt(kms, j);
    }
    forall i, j | 0 <= i < j < |kms| ensures kms[i].literal != kms[j].literal {
      assert First(built, from[j]) && BuildsFor(built[from[i]], kms[i].literal);
    }
    forall k ensures k in Literals(kms) <==> SomeBuilds(built, upTo, k) {
      if k in Literals(kms) {
        var j :| 0 <= j < |Literals(kms)| && Literals(kms)[j] == k;
        assert BuildsFor(built[from[j]], k);
      }
      if SomeBuilds(built, upTo, k) {
        var i :| 0 <= i < upTo && BuildsFor(built[i], k);
        var f := FirstExists(built, i);
        var j :| 0 <= j < |from| && from[j] == f;
        assert Literals(kms)[j] == k;
      }
    }
  }

  lemma KeepFirst(built: seq<Option<Built>>, i: nat, from: seq<nat>, kms: seq<Mapping>)
    requires i < |built| && Kept(built, i, from, kms) && First(built, i)
    ensures Kept(built, i + 1, from + [i], kms + [built[i].value.mapping])
  {
    forall l | 0 <= l < i + 1 && First(built, l) ensures l in from + [i] {
      assert l < i ==> l in from;
    }
  }

  lemma SomeBuildsNext(built: seq<Option<Built>>, i: nat, k: Literal)
    requires i < |built|
    ensures SomeBuilds(built, i + 1, k) <==> SomeBuilds(built, i, k) || BuildsFor(built[i], k)
  {
    if SomeBuilds(built, i, k) {
      var j :| 0 <= j < i && BuildsFor(built[j], k);
      assert j < i + 1;
    }
  }

  lemma NoneKeptIff(built: seq<Option<Built>>, from: seq<nat>, kms: seq<Mapping>)
    requires Kept(built, |built|, from, kms)
    ensures kms == [] <==> forall i :: 0 <= i < |built| ==> built[i].None?
  {
    if i :| 0 <= i < |built| && built[i].Some? {
      var f := FirstExists(built, i);
      assert f in from;
    }
    if kms != [] {
      assert First(built, from[0]);
    }
  }

  /** The version of the last kept mapping. */
  ghost function LastVersion(built: seq<Option<Built>>, from: seq<nat>): string {
    if from == [] || from[|from| - 1] >= |built| then "" else
    var b := built[from[|from| - 1]];
    if b.None? then "" else b.value.version
  }

  /** The loop's state after upTo nodes. */
  ghost predicate Gathered(built: seq<Option<Built>>, upTo: nat, from: seq<nat>, kms: seq<Mapping>,
                           seen: set<Literal>, version: string)
    requires upTo <= |built|
  {
    && Kept(built, upTo, from, kms)
    && (forall k :: k in seen <==> SomeBuilds(built, upTo, k))
    && version == LastVersion(built, from)
  }

  lemma GatherNext(built: seq<Option<Built>>, i: nat, from: seq<nat>, kms: seq<Mapping>,
                   seen: set<Literal>, version: string)
    requires i < |built| && Gathered(built, i, from, kms, seen, version)
    ensures if built[i].Some? && built[i].value.mapping.literal !in seen
            then var b := built[i].value;
                 Gathered(built, i + 1, from + [i], kms + [b.mapping], seen + {b.mapping.literal}, b.version)
            else Gathered(built, i + 1, from, kms, seen, version)
  {
    forall k { SomeBuildsNext(built, i, k); }
    if First(built, i) {
      KeepFirst(built, i, from, kms);
    }
  }

  /** getKernelMappings: None is the error. The kept mappings are those of the
      first node per literal, in node order, and the version is the last one's.
      built holds getKM's result for each selected node (BuildAll). */
  method GetKernelMappings(built: seq<Option<Built>>)
    returns (kms: Option<seq<Mapping>>, version: string, ghost from: seq<nat>)
    ensures kms.None? <==> forall i :: 0 <= i < |built| ==> built[i].None?
    ensures kms.None? ==> version == ""
    ensures kms.Some? ==>
              && kms.value != [] && Kept(built, |built|, from, kms.value)
              && version == built[from[|from| - 1]].value.version
  {
    var kept: seq<Mapping> := [];
    var seen: set<Literal> := {};
    from, version := [], "";
    for i := 0 to |built|
      invariant Gathered(built, i, from, kept, seen, version)
    {
      GatherNext(built, i, from, kept, seen, version);
      var b := built[i];
      if b.Some? && b.value.mapping.literal !in seen {
        kept, from := kept + [b.value.mapping], from + [i];
        seen, version := seen + {b.value.mapping.literal}, b.value.version;
      }
    }
    NoneKeptIff(built, from, kept);
    if kept == [] {
      return None, "", from;
    }
    return Some(kept), version, from;
  }

  /** The one mapping KMM finds for a node that builds: the mapping of the first
      such node with that kernel. */
  lemma NodeFindsMapping(built: seq<Option<Built>>, from: seq<nat>, kms: seq<Mapping>, i: nat) returns (j: nat)
    requires Kept(built, |built|, from, kms) && i < |built| && built[i].Some?
    ensures j < |kms| && kms[j].literal == built[i].value.mapping.literal && from[j] <= i
    ensures forall l :: 0 <= l < |kms| && kms[l].literal == kms[j].literal ==> l == j
  {
    var f := FirstExists(built, i);
    j :| 0 <= j < |from| && from[j] == f;
    forall l | 0 <= l < |kms| && kms[l].literal == kms[j].literal ensures l == j {
      assert First(built, from[l]) && First(built, from[j]);
      assert BuildsFor(built[from[l]], kms[j].literal) && BuildsFor(built[from[j]], kms[j].literal);
    }
  }

  /** Versions whose tags both readers can read. */
  predicate Readable(version: string) {
    '$' !in version && ':' !in version && '-' !in version && |version| < TAG_LIMIT
  }

  /** From spec to running node: a node's loaded image names the node's own
      version exactly when the first node with its kernel has the same one, and
      always when the spec names a version. */
  lemma NodeReadsOwnVersionIff(spec: DriverSpec, p: Platform, nodes: seq<Node>, from: seq<nat>, kms: seq<Mapping>,
                               i: nat, j: nat)
    requires Kept(BuildAll(spec, p, nodes), |nodes|, from, kms)
    requires i < |nodes| && BuildMapping(spec, p, nodes[i]).Some?
    requires j < |kms| && kms[j].literal == LiteralOf(nodes[i])
    requires Readable(VersionFor(spec, p, nodes[from[j]]).value)
    ensures VersionRead(Render(kms[j].image, nodes[i].kernel)) == VersionFor(spec, p, nodes[i]).value
            <==> VersionFor(spec, p, nodes[i]) == VersionFor(spec, p, nodes[from[j]])
    ensures spec.version != "" ==>
              && VersionRead(Render(kms[j].image, nodes[i].kernel)) == spec.version
              && HasSuffix(Render(kms[j].image, nodes[i].kernel), spec.version)
  {
    var first := nodes[from[j]];
    var image := if spec.image == "" then p.defaultImage else spec.image;
    var version := VersionFor(spec, p, first).value;
    VersionReadBackIff(image, first.os.value, spec.driverType, version, nodes[i].kernel);
    ReadyTestPassesIff(image, first.os.value, spec.driverType, version, nodes[i].kernel);
  }
}
