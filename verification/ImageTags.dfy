/** The driver image tag and its two readers: the node-ready suffix test of the
    upgrade manager and the version label reset after a failed upgrade. A char
    stands for a byte, as the tag limit counts bytes. */
module ImageTags {
  import opened Base

  const PLACEHOLDER := "${KERNEL_FULL_VERSION}"
  const TAG_LIMIT := 128

  function DriverTypeTag(driverType: string): string {
    if driverType == "vf-passthrough" || driverType == "pf-passthrough" then "-" + driverType else ""
  }

  function FullTag(os: string, driverType: string, version: string): string {
    os + "-" + PLACEHOLDER + DriverTypeTag(driverType) + "-" + version
  }

  /** The last TAG_LIMIT characters. */
  function LimitTag(tag: string): (r: string)
    ensures |r| == Min(|tag|, TAG_LIMIT) && HasSuffix(tag, r)
  {
    if |tag| > TAG_LIMIT then tag[|tag| - TAG_LIMIT..] else tag
  }

  /** addNodeInfoSuffixToImageTag. */
  function ImageWithTag(image: string, os: string, driverType: string, version: string): string {
    image + ":" + LimitTag(FullTag(os, driverType, version))
  }

  /** KMM puts the node's kernel in place of every placeholder. */
  function Render(s: string, kernel: string): string {
    if s == "" then ""
    else if HasPrefix(s, PLACEHOLDER) then kernel + Render(s[|PLACEHOLDER|..], kernel)
    else [s[0]] + Render(s[1..], kernel)
  }

  /** strings.Split with a one-character separator. */
  function Split(s: string, sep: char): (parts: seq<string>)
    ensures parts != []
  {
    if s == "" then [""] else
    var rest := Split(s[1..], sep);
    if s[0] == sep then [""] + rest else [[s[0]] + rest[0]] + rest[1..]
  }

  function LastPart(s: string, sep: char): string {
    var parts := Split(s, sep);
    parts[|parts| - 1]
  }

  /** resetModuleVersionOnNode reads the version after the last '-'. */
  function VersionRead(image: string): string {
    LastPart(image, '-')
  }

  // --------------------------------------------------------------- splitting

  /** The last part is the longest suffix without the separator. */
  lemma {:induction false} LastPartMaximal(s: string, sep: char)
    ensures var p := LastPart(s, sep);
            && HasSuffix(s, p) && sep !in p
            && (|p| < |s| ==> s[|s| - |p| - 1] == sep)
            && (|Split(s, sep)| == 1 ==> p == s)
            && (|Split(s, sep)| > 1 ==> |p| < |s|)
  {
    if s != "" {
      var p := LastPart(s[1..], sep);
      LastPartMaximal(s[1..], sep);
      if s[0] == sep || |Split(s[1..], sep)| > 1 {
        assert LastPart(s, sep) == p;
      } else {
        assert LastPart(s, sep) == [s[0]] + p == s;
      }
    }
  }

  lemma LastPartAfter(front: string, sep: char, back: string)
    ensures sep !in back ==> LastPart(front + [sep] + back, sep) == back
    ensures LastPart(front + [sep] + back, sep) == back ==> sep !in back
  {
    var s := front + [sep] + back;
    var p := LastPart(s, sep);
    LastPartMaximal(s, sep);
    assert s[|front|] == sep;
    assert forall i :: 0 <= i < |back| ==> s[|front| + 1 + i] == back[i];
    if sep !in back {
      assert |p| == |back|;
      assert p == s[|s| - |back|..] == back;
    }
  }

  /** A part that must reach back over a known separator-free tail ends in it. */
  lemma LastPartReaches(front: string, sep: char, back: string)
    requires back != "" && sep !in back
    ensures back[0] in LastPart(front + back, sep)
  {
    var s := front + back;
    var p := LastPart(s, sep);
    LastPartMaximal(s, sep);
    assert forall i :: 0 <= i < |back| ==> s[|front| + i] == back[i];
    assert |p| >= |back|;
    assert p[|p| - |back|] == s[|front|];
  }

  // --------------------------------------------------------------- rendering

  lemma PlaceholderText()
    ensures '-' !in PLACEHOLDER && ':' !in PLACEHOLDER
    ensures forall i :: 0 <= i < |PLACEHOLDER| ==> (PLACEHOLDER[i] == '$' <==> i == 0)
  {
  }

  lemma {:induction false} RenderPlain(q: string, kernel: string)
    requires '$' !in q
    ensures Render(q, kernel) == q
  {
    if q != "" {
      RenderPlain(q[1..], kernel);
      assert q[0] in q;
    }
  }

  lemma PrefixBarrier(p: string, x: char, q: string, h: string)
    requires x !in h
    ensures HasPrefix(p + [x] + q, h) <==> HasPrefix(p, h)
  {
    var s := p + [x] + q;
    assert s[|p|] == x;
    if |h| <= |p| {
      assert s[..|h|] == p[..|h|];
    }
  }

  /** Rendering cannot cross a character the placeholder does not use. */
  lemma {:induction false} RenderBarrier(p: string, x: char, q: string, kernel: string)
    requires x !in PLACEHOLDER && '$' !in q
    ensures Render(p + [x] + q, kernel) == Render(p, kernel) + [x] + q
  {
    var s := p + [x] + q;
    PrefixBarrier(p, x, q, PLACEHOLDER);
    if p == "" {
      assert s[0] == x && s[1..] == q;
      RenderPlain(q, kernel);
    } else if HasPrefix(p, PLACEHOLDER) {
      assert s[|PLACEHOLDER|..] == p[|PLACEHOLDER|..] + [x] + q;
      RenderBarrier(p[|PLACEHOLDER|..], x, q, kernel);
    } else {
      assert s[1..] == p[1..] + [x] + q;
      RenderBarrier(p[1..], x, q, kernel);
    }
  }

  /** Text before the placeholder that holds no '$' is copied. */
  lemma {:induction false} RenderPast(p: string, s: string, kernel: string)
    requires '$' !in p
    ensures Render(p + s, kernel) == p + Render(s, kernel)
  {
    if p == "" {
      assert p + s == s;
    } else {
      assert (p + s)[0] == p[0] && (p + s)[1..] == p[1..] + s;
      assert p[0] in p;
      assert !HasPrefix(p + s, PLACEHOLDER);
      RenderPast(p[1..], s, kernel);
    }
  }

  lemma RenderPlaceholder(q: string, kernel: string)
    requires '$' !in q
    ensures Render(PLACEHOLDER + q, kernel) == kernel + q
  {
    var s := PLACEHOLDER + q;
    assert s[..|PLACEHOLDER|] == PLACEHOLDER && s[|PLACEHOLDER|..] == q;
    RenderPlain(q, kernel);
  }

  /** Every placeholder gets the kernel, wherever it stands. */
  lemma RenderEvery(p: string, s: string, kernel: string)
    requires '$' !in p
    ensures Render(p + ("${KERNEL_FULL_VERSION}" + s), kernel) == p + (kernel + Render(s, kernel))
  {
    var rest := PLACEHOLDER + s;
    assert rest[..|PLACEHOLDER|] == PLACEHOLDER && rest[|PLACEHOLDER|..] == s;
    RenderPast(p, rest, kernel);
  }

  // ------------------------------------------------------------ the two readers

  /** The limit cuts only at the front: what fits in a tag survives whole. */
  lemma LimitKeepsBack(lead: string, back: string) returns (cut: string)
    requires |back| <= TAG_LIMIT
    ensures HasSuffix(lead, cut) && LimitTag(lead + back) == cut + back
  {
    var n := |LimitTag(lead + back)| - |back|;
    cut := lead[|lead| - n..];
    assert LimitTag(lead + back) == (lead + back)[|lead| - n..] == cut + back;
  }

  /** What does not fit is cut alone. */
  lemma LimitCutsBack(lead: string, back: string)
    requires |back| >= TAG_LIMIT
    ensures LimitTag(lead + back) == back[|back| - TAG_LIMIT..]
  {
    var s := lead + back;
    assert s[|s| - TAG_LIMIT..] == back[|back| - TAG_LIMIT..];
  }

  lemma Regroup(a: string, x: string, y: char, z: string)
    ensures a + (x + ([y] + z)) == a + x + [y] + z
  {
  }

  /** The end of a rendered image whose version fits behind a '-'. */
  lemma ShortEnd(image: string, os: string, driverType: string, version: string, kernel: string)
    returns (front: string)
    requires '$' !in version && |version| < TAG_LIMIT
    ensures Render(ImageWithTag(image, os, driverType, version), kernel) == front + ['-'] + version
  {
    var lead := os + "-" + PLACEHOLDER + DriverTypeTag(driverType);
    assert FullTag(os, driverType, version) == lead + (['-'] + version);
    var cut := LimitKeepsBack(lead, ['-'] + version);
    var name := image + ":";
    assert ImageWithTag(image, os, driverType, version) == name + (cut + (['-'] + version));
    Regroup(name, cut, '-', version);
    PlaceholderText();
    RenderBarrier(name + cut, '-', version, kernel);
    front := Render(name + cut, kernel);
  }

  /** What a rendered image ends in: '-' and the version when the version fits
      behind it, else ':' and the version's last TAG_LIMIT characters. */
  lemma RenderedEnd(image: string, os: string, driverType: string, version: string, kernel: string)
    returns (front: string)
    requires '$' !in version
    ensures var s := Render(ImageWithTag(image, os, driverType, version), kernel);
            if |version| < TAG_LIMIT then s == front + ['-'] + version
            else s == front + [':'] + version[|version| - TAG_LIMIT..]
  {
    if |version| < TAG_LIMIT {
      front := ShortEnd(image, os, driverType, version, kernel);
    } else {
      LimitCutsBack(os + "-" + PLACEHOLDER + DriverTypeTag(driverType) + "-", version);
      PlaceholderText();
      RenderBarrier(image, ':', version[|version| - TAG_LIMIT..], kernel);
      front := Render(image, kernel);
    }
  }

  lemma ReadsTooMuch(front: string, q: string, version: string)
    requires ':' !in version && HasSuffix(version, q)
    ensures VersionRead(front + [':'] + q) != version
  {
    var s := front + [':'] + q;
    LastPartMaximal(s, '-');
    if '-' !in version {
      SuffixAvoids(version, q, '-');
      assert s == front + ([':'] + q);
      LastPartReaches(front, '-', [':'] + q);
    }
  }

  /** For every image, OS, driver type and kernel, the version read back from
      the rendered image is the printed one exactly when it has no '-' and fits
      behind one. */
  lemma VersionReadBackIff(image: string, os: string, driverType: string, version: string, kernel: string)
    requires '$' !in version && ':' !in version
    ensures VersionRead(Render(ImageWithTag(image, os, driverType, version), kernel)) == version
            <==> '-' !in version && |version| <= 127
  {
    var s := Render(ImageWithTag(image, os, driverType, version), kernel);
    var front := RenderedEnd(image, os, driverType, version, kernel);
    if |version| < TAG_LIMIT {
      LastPartAfter(front, '-', version);
    } else {
      ReadsTooMuch(front, version[|version| - TAG_LIMIT..], version);
    }
  }

  /** The suffix test for the printed version passes exactly when the version
      fits in a tag. */
  lemma ReadyTestPassesIff(image: string, os: string, driverType: string, version: string, kernel: string)
    requires '$' !in version && ':' !in version
    ensures HasSuffix(Render(ImageWithTag(image, os, driverType, version), kernel), version)
            <==> |version| <= 128
  {
    var s := Render(ImageWithTag(image, os, driverType, version), kernel);
    var front := RenderedEnd(image, os, driverType, version, kernel);
    if |version| > TAG_LIMIT {
      assert s[|s| - TAG_LIMIT - 1] == ':';
    }
  }

  lemma SuffixAcross(front: string, sep: char, u: string, w: string)
    requires sep !in w
    ensures HasSuffix(front + [sep] + u, w) <==> HasSuffix(u, w)
  {
    var s := front + [sep] + u;
    if |w| <= |u| {
      assert s[|s| - |w|..] == u[|u| - |w|..];
    } else if |w| <= |s| {
      assert s[|s| - |w|..][|w| - |u| - 1] == s[|front|] == sep;
      assert w[|w| - |u| - 1] in w;
    }
  }

  /** The suffix test passes for a version w on an image of version u exactly when
      w ends u: an image of "16.3" passes as one of "6.3". */
  lemma ReadyTestAcceptsIff(image: string, os: string, driverType: string, u: string, w: string, kernel: string)
    requires '$' !in u && |u| < TAG_LIMIT && '-' !in w
    ensures HasSuffix(Render(ImageWithTag(image, os, driverType, u), kernel), w) <==> HasSuffix(u, w)
  {
    var front := RenderedEnd(image, os, driverType, u, kernel);
    SuffixAcross(front, '-', u, w);
  }

  /** The part of the tag that must survive the limit for kernels to differ. */
  function KernelTail(driverType: string, version: string): string {
    DriverTypeTag(driverType) + "-" + version
  }

  lemma NoDollarInTag(os: string, driverType: string, version: string)
    requires '$' !in os && '$' !in version
    ensures '$' !in KernelTail(driverType, version)
    ensures FullTag(os, driverType, version) == (os + "-") + (PLACEHOLDER + KernelTail(driverType, version))
  {
    assert '$' !in DriverTypeTag(driverType);
    var t := DriverTypeTag(driverType);
    assert os + "-" + PLACEHOLDER + t + "-" + version == (os + "-") + (PLACEHOLDER + (t + "-" + version));
  }

  /** A tag cut inside its placeholder is the same for every kernel. */
  lemma CutTagPlain(os: string, driverType: string, version: string)
    requires '$' !in os && '$' !in version
    requires |PLACEHOLDER + KernelTail(driverType, version)| > TAG_LIMIT
    ensures '$' !in LimitTag(FullTag(os, driverType, version))
  {
    var tail := KernelTail(driverType, version);
    NoDollarInTag(os, driverType, version);
    PlaceholderText();
    var rest := PLACEHOLDER[1..] + tail;
    assert (os + "-") + (PLACEHOLDER + tail) == (os + "-" + "$") + rest;
    LimitCutsBack(os + "-" + "$", rest);
    SuffixAvoids(rest, rest[|rest| - TAG_LIMIT..], '$');
  }

  lemma WholeTag(os: string, driverType: string, version: string) returns (lead: string)
    requires '$' !in os && '$' !in version
    requires |PLACEHOLDER + KernelTail(driverType, version)| <= TAG_LIMIT
    ensures '$' !in lead
    ensures LimitTag(FullTag(os, driverType, version)) == lead + (PLACEHOLDER + KernelTail(driverType, version))
  {
    NoDollarInTag(os, driverType, version);
    lead := LimitKeepsBack(os + "-", PLACEHOLDER + KernelTail(driverType, version));
    SuffixAvoids(os + "-", lead, '$');
  }

  /** The image of a running driver, in full: what follows the name fits in a tag. */
  lemma RenderedImage(image: string, os: string, driverType: string, version: string, kernel: string)
    requires '$' !in image && '$' !in os && '$' !in version
    requires var kind := if driverType in {"vf-passthrough", "pf-passthrough"} then "-" + driverType else "";
             |os + "-${KERNEL_FULL_VERSION}" + kind + "-" + version| <= 128
    ensures var kind := if driverType in {"vf-passthrough", "pf-passthrough"} then "-" + driverType else "";
            Render(ImageWithTag(image, os, driverType, version), kernel)
            == image + ":" + os + "-" + kernel + kind + "-" + version
  {
    var tail := KernelTail(driverType, version);
    NoDollarInTag(os, driverType, version);
    RenderWhole(image, os, tail, kernel);
    InLine(image + ":" + os + "-", kernel, DriverTypeTag(driverType), version);
  }

  lemma RenderWhole(image: string, os: string, tail: string, kernel: string)
    requires '$' !in image && '$' !in os && '$' !in tail
    ensures Render(image + ":" + ((os + "-") + (PLACEHOLDER + tail)), kernel)
            == (image + ":" + os + "-") + (kernel + tail)
  {
    var lead := image + ":" + os + "-";
    assert image + ":" + ((os + "-") + (PLACEHOLDER + tail)) == lead + (PLACEHOLDER + tail);
    RenderPast(lead, PLACEHOLDER + tail, kernel);
    RenderPlaceholder(tail, kernel);
  }

  lemma InLine(lead: string, kernel: string, kind: string, version: string)
    ensures lead + (kernel + (kind + "-" + version)) == lead + kernel + kind + "-" + version
  {
  }

  /** Images built for different kernels differ exactly when the placeholder and
      what follows it fit in the tag; otherwise every kernel shares one image. */
  lemma KernelsSeparateIff(image: string, os: string, driverType: string, version: string, k1: string, k2: string)
    requires '$' !in image && '$' !in os && '$' !in version && k1 != k2
    ensures Render(ImageWithTag(image, os, driverType, version), k1)
            != Render(ImageWithTag(image, os, driverType, version), k2)
            <==> |PLACEHOLDER + KernelTail(driverType, version)| <= TAG_LIMIT
  {
    if |PLACEHOLDER + KernelTail(driverType, version)| <= TAG_LIMIT {
      var lead := WholeTag(os, driverType, version);
      NoDollarInTag(os, driverType, version);
      SeparateWhole(image, lead, KernelTail(driverType, version), k1, k2);
    } else {
      CutTagPlain(os, driverType, version);
      RenderPlain(ImageWithTag(image, os, driverType, version), k1);
      RenderPlain(ImageWithTag(image, os, driverType, version), k2);
    }
  }

  /** The tags of the two passthrough driver types differ exactly when the limit
      leaves the driver type in them. */
  lemma PassthroughTagsDifferIff(os: string, version: string)
    ensures LimitTag(FullTag(os, "vf-passthrough", version)) != LimitTag(FullTag(os, "pf-passthrough", version))
            <==> |"vf-passthrough"| + 1 + |version| <= 128
  {
    var lead := os + "-" + PLACEHOLDER + "-";
    var tail := "f-passthrough";
    PassthroughTag(os, "vf-passthrough", 'v', tail, version);
    PassthroughTag(os, "pf-passthrough", 'p', tail, version);
    OneApart(lead, 'v', 'p', tail + "-" + version);
  }

  lemma PassthroughTag(os: string, t: string, x: char, tail: string, version: string)
    requires t == [x] + tail && DriverTypeTag(t) == "-" + t
    ensures FullTag(os, t, version) == os + "-" + PLACEHOLDER + "-" + [x] + (tail + "-" + version)
  {
    var front := os + "-" + PLACEHOLDER;
    assert front + ("-" + ([x] + tail)) + "-" + version == front + "-" + [x] + (tail + "-" + version);
  }

  lemma OneApart(lead: string, x: char, y: char, rest: string)
    requires x != y
    ensures LimitTag(lead + [x] + rest) != LimitTag(lead + [y] + rest) <==> |rest| < TAG_LIMIT
  {
    var a, b := lead + [x] + rest, lead + [y] + rest;
    var n := |LimitTag(a)|;
    if |rest| < TAG_LIMIT {
      assert LimitTag(a)[n - |rest| - 1] == x && LimitTag(b)[n - |rest| - 1] == y;
    } else {
      assert LimitTag(a) == rest[|rest| - n..] == LimitTag(b);
    }
  }

  lemma SuffixAvoids(s: string, p: string, x: char)
    requires HasSuffix(s, p) && x !in s
    ensures x !in p
  {
    assert forall i :: 0 <= i < |p| ==> p[i] == s[|s| - |p| + i];
  }

  lemma SeparateWhole(image: string, lead: string, tail: string, k1: string, k2: string)
    requires '$' !in image && '$' !in lead && '$' !in tail && k1 != k2
    ensures Render(image + ":" + (lead + (PLACEHOLDER + tail)), k1)
            != Render(image + ":" + (lead + (PLACEHOLDER + tail)), k2)
  {
    var p := image + ":" + lead;
    assert image + ":" + (lead + (PLACEHOLDER + tail)) == p + (PLACEHOLDER + tail);
    RenderPast(p, PLACEHOLDER + tail, k1);
    RenderPast(p, PLACEHOLDER + tail, k2);
    RenderPlaceholder(tail, k1);
    RenderPlaceholder(tail, k2);
    CommonEnds(p, k1, k2, tail);
  }

  lemma CommonEnds(p: string, k1: string, k2: string, tail: string)
    requires k1 != k2
    ensures p + (k1 + tail) != p + (k2 + tail)
  {
    var r1, r2 := p + (k1 + tail), p + (k2 + tail);
    assert r1[|p|..|r1| - |tail|] == k1 && r2[|p|..|r2| - |tail|] == k2;
  }
}
