/** Node labels that carry a DeviceConfig's namespace and name: the templates
    that print them and the regular expressions that read them back. */
module LabelTemplates {
  import opened Base

  datatype Template = VfioReady | DriverType | KmmReady

  function Lead(t: Template): string {
    if t.KmmReady? then "kmm.node.kubernetes.io/" else "gpu.operator.amd.com/"
  }

  function Tail(t: Template): string {
    match t
    case VfioReady => ".vfio.ready"
    case DriverType => ".driver"
    case KmmReady => ".ready"
  }

  function Text(t: Template): string {
    Lead(t) + ("%v" + ("." + ("%v" + Tail(t))))
  }

  /** fmt.Sprintf with %v verbs only. */
  function Sprintf(text: string, args: seq<string>): string {
    if text == "" then ""
    else if HasPrefix(text, "%v") && args != [] then args[0] + Sprintf(text[2..], args[1..])
    else [text[0]] + Sprintf(text[1..], args)
  }

  // ------------------------------------------------- the regular expressions

  /** One character, ([^.]+) or (.+). */
  datatype Item = Lit(c: char) | Undotted | Anything

  /** generateRegexPattern: the first %v becomes ([^.]+), the second (.+), and
      everything else, dots included, stands for itself. */
  function Compile(text: string, holes: seq<Item>): seq<Item> {
    if text == "" then []
    else if HasPrefix(text, "%v") && holes != [] then [holes[0]] + Compile(text[2..], holes[1..])
    else [Lit(text[0])] + Compile(text[1..], holes)
  }

  const HOLES := [Undotted, Anything]

  /** What a group may capture; "." does not match a newline. */
  predicate Captures(hole: Item, s: string) {
    s != "" && (hole.Undotted? ==> '.' !in s) && (hole.Anything? ==> '\n' !in s)
  }

  /** Find: leftmost-first search anchored at both ends; each group first tries
      its longest capture. TryGroup tries captures of at most n characters. */
  function Find(items: seq<Item>, key: string): Option<seq<string>>
    decreases |items|, |key| + 1
  {
    if items == [] then (if key == "" then Some([]) else None)
    else if items[0].Lit? then
      if key != "" && key[0] == items[0].c then Find(items[1..], key[1..]) else None
    else TryGroup(items, key, |key|)
  }

  function TryGroup(items: seq<Item>, key: string, n: nat): Option<seq<string>>
    requires items != [] && n <= |key|
    decreases |items|, n
  {
    if n == 0 then None else
    var rest := if Captures(items[0], key[..n]) then Find(items[1..], key[n..]) else None;
    if rest.Some? then Some([key[..n]] + rest.value) else TryGroup(items, key, n - 1)
  }

  /** The reference meaning: key is an instance of the items with these captures. */
  predicate Matches(items: seq<Item>, key: string, caps: seq<string>) {
    if items == [] then key == "" && caps == []
    else if items[0].Lit? then key != "" && key[0] == items[0].c && Matches(items[1..], key[1..], caps)
    else caps != [] && Captures(items[0], caps[0]) && HasPrefix(key, caps[0])
         && Matches(items[1..], key[|caps[0]|..], caps[1..])
  }

  lemma {:induction false} FindIsMatch(items: seq<Item>, key: string)
    ensures Find(items, key).Some? ==> Matches(items, key, Find(items, key).value)
    decreases |items|, |key| + 1
  {
    if items != [] {
      if items[0].Lit? {
        if key != "" {
          FindIsMatch(items[1..], key[1..]);
        }
      } else {
        TryGroupIsMatch(items, key, |key|);
      }
    }
  }

  lemma {:induction false} TryGroupIsMatch(items: seq<Item>, key: string, n: nat)
    requires items != [] && !items[0].Lit? && n <= |key|
    ensures TryGroup(items, key, n).Some? ==> Matches(items, key, TryGroup(items, key, n).value)
    decreases |items|, n
  {
    if n > 0 {
      FindIsMatch(items[1..], key[n..]);
      TryGroupIsMatch(items, key, n - 1);
    }
  }

  lemma {:induction false} MatchIsFound(items: seq<Item>, key: string, caps: seq<string>)
    requires Matches(items, key, caps)
    ensures Find(items, key).Some?
    decreases |items|, |key| + 1
  {
    if items != [] {
      if items[0].Lit? {
        MatchIsFound(items[1..], key[1..], caps);
      } else {
        MatchIsTried(items, key, caps, |key|);
      }
    }
  }

  lemma {:induction false} MatchIsTried(items: seq<Item>, key: string, caps: seq<string>, n: nat)
    requires items != [] && !items[0].Lit? && Matches(items, key, caps) && |caps[0]| <= n <= |key|
    ensures TryGroup(items, key, n).Some?
    decreases |items|, n
  {
    if n == |caps[0]| {
      MatchIsFound(items[1..], key[n..], caps[1..]);
    } else {
      MatchIsTried(items, key, caps, n - 1);
    }
  }

  // ------------------------------------------------- matching inverts printing

  ghost predicate Fit(caps: seq<string>, holes: seq<Item>) {
    |caps| == |holes| && forall i :: 0 <= i < |caps| ==> Captures(holes[i], caps[i])
  }

  /** The number of %v verbs. */
  function Verbs(text: string): nat {
    if text == "" then 0
    else if HasPrefix(text, "%v") then 1 + Verbs(text[2..])
    else Verbs(text[1..])
  }

  /** A key matches a template with given captures exactly when the captures fit
      their groups and the template printed with them is the key. */
  lemma {:induction false} MatchIffPrinted(text: string, holes: seq<Item>, key: string, caps: seq<string>)
    requires Verbs(text) == |holes| && forall i :: 0 <= i < |holes| ==> !holes[i].Lit?
    ensures Matches(Compile(text, holes), key, caps) <==> Fit(caps, holes) && key == Sprintf(text, caps)
  {
    if text != "" {
      if HasPrefix(text, "%v") {
        if caps != [] && HasPrefix(key, caps[0]) {
          MatchIffPrinted(text[2..], holes[1..], key[|caps[0]|..], caps[1..]);
          assert key == caps[0] + key[|caps[0]|..];
        }
      } else if key != "" {
        MatchIffPrinted(text[1..], holes, key[1..], caps);
        assert key == [key[0]] + key[1..];
      }
    }
  }

  // -------------------------------------------------------- the three templates

  function Label(t: Template, namespace: string, name: string): string {
    Sprintf(Text(t), [namespace, name])
  }

  function Read(t: Template, key: string): Option<seq<string>> {
    Find(Compile(Text(t), HOLES), key)
  }

  lemma {:induction false} PrintPlain(text: string, rest: string, args: seq<string>)
    requires '%' !in text
    ensures Sprintf(text + rest, args) == text + Sprintf(rest, args)
    ensures Verbs(text + rest) == Verbs(rest)
  {
    if text == "" {
      assert text + rest == rest;
    } else {
      assert (text + rest)[0] == text[0] && (text + rest)[1..] == text[1..] + rest;
      assert text[0] in text;
      assert !HasPrefix(text + rest, "%v");
      PrintPlain(text[1..], rest, args);
    }
  }

  lemma PrintVerb(rest: string, arg: string, args: seq<string>)
    ensures Sprintf("%v" + rest, [arg] + args) == arg + Sprintf(rest, args)
    ensures Verbs("%v" + rest) == 1 + Verbs(rest)
  {
    var text := "%v" + rest;
    assert text[..2] == "%v" && text[2..] == rest;
    assert ([arg] + args)[1..] == args;
  }

  function Parts(lead: string, namespace: string, name: string, tail: string): string {
    lead + (namespace + ("." + (name + tail)))
  }

  lemma PrintParts(lead: string, namespace: string, name: string, tail: string)
    requires '%' !in lead && '%' !in tail
    ensures var text := lead + ("%v" + ("." + ("%v" + tail)));
            Sprintf(text, [namespace, name]) == Parts(lead, namespace, name, tail) && Verbs(text) == 2
  {
    assert [namespace, name] == [namespace] + [name] && [name] == [name] + [];
    PrintPlain(lead, "%v" + ("." + ("%v" + tail)), [namespace, name]);
    PrintVerb("." + ("%v" + tail), namespace, [name]);
    PrintPlain(".", "%v" + tail, [name]);
    PrintVerb(tail, name, []);
    PrintPlain(tail, "", []);
    assert tail + "" == tail;
  }

  lemma LabelParts(t: Template, namespace: string, name: string)
    ensures Label(t, namespace, name) == Parts(Lead(t), namespace, name, Tail(t))
    ensures Verbs(Text(t)) == 2
  {
    PrintParts(Lead(t), namespace, name, Tail(t));
  }

  /** The labels as they stand on a node. */
  lemma LabelTexts(namespace: string, name: string)
    ensures Label(VfioReady, namespace, name) == "gpu.operator.amd.com/" + namespace + "." + name + ".vfio.ready"
    ensures Label(DriverType, namespace, name) == "gpu.operator.amd.com/" + namespace + "." + name + ".driver"
    ensures Label(KmmReady, namespace, name) == "kmm.node.kubernetes.io/" + namespace + "." + name + ".ready"
  {
    LabelParts(VfioReady, namespace, name);
    LabelParts(DriverType, namespace, name);
    LabelParts(KmmReady, namespace, name);
    PartsInLine("gpu.operator.amd.com/", namespace, name, ".vfio.ready");
    PartsInLine("gpu.operator.amd.com/", namespace, name, ".driver");
    PartsInLine("kmm.node.kubernetes.io/", namespace, name, ".ready");
  }

  lemma PartsInLine(lead: string, namespace: string, name: string, tail: string)
    ensures Parts(lead, namespace, name, tail) == lead + namespace + "." + name + tail
  {
  }

  /** What a label may carry: a namespace without dots and any one-line name. */
  predicate Carried(namespace: string, name: string) {
    namespace != "" && '.' !in namespace && name != "" && '\n' !in name
  }

  lemma FirstDotSplits(a: string, b: string, a': string, b': string)
    requires '.' !in a && '.' !in a' && a + ("." + b) == a' + ("." + b')
    ensures a == a' && b == b'
  {
    var s, s' := a + ("." + b), a' + ("." + b');
    assert forall i :: 0 <= i < |a| ==> s[i] == a[i];
    assert forall i :: 0 <= i < |a'| ==> s'[i] == a'[i];
    assert s[|a|] == '.' && s'[|a'|] == '.';
    assert |a| == |a'|;
    assert a == s[..|a|] && a' == s'[..|a'|];
    assert b == s[|a| + 1..] && b' == s'[|a'| + 1..];
  }

  lemma PartsInjective(lead: string, ns: string, name: string, ns': string, name': string, tail: string)
    requires '.' !in ns && '.' !in ns' && Parts(lead, ns, name, tail) == Parts(lead, ns', name', tail)
    ensures ns == ns' && name == name'
  {
    var s, s' := ns + ("." + (name + tail)), ns' + ("." + (name' + tail));
    assert s == (lead + s)[|lead|..] && s' == (lead + s')[|lead|..];
    FirstDotSplits(ns, name + tail, ns', name' + tail);
    assert name == (name + tail)[..|name + tail| - |tail|] && name' == (name' + tail)[..|name' + tail| - |tail|];
  }

  lemma LabelInjective(t: Template, ns: string, name: string, ns': string, name': string)
    requires '.' !in ns && '.' !in ns' && Label(t, ns, name) == Label(t, ns', name')
    ensures ns == ns' && name == name'
  {
    LabelParts(t, ns, name);
    LabelParts(t, ns', name');
    PartsInjective(Lead(t), ns, name, ns', name', Tail(t));
  }

  lemma PartsShift(lead: string, a: string, b: string, name: string, tail: string)
    ensures Parts(lead, a + ("." + b), name, tail) == Parts(lead, a, b + ("." + name), tail)
  {
    assert (a + ("." + b)) + ("." + (name + tail)) == a + ("." + ((b + ("." + name)) + tail));
  }

  lemma MatchIffLabel(t: Template, key: string, caps: seq<string>)
    ensures Matches(Compile(Text(t), HOLES), key, caps) <==>
              |caps| == 2 && Carried(caps[0], caps[1]) && key == Label(t, caps[0], caps[1])
  {
    LabelParts(t, "", "");
    MatchIffPrinted(Text(t), HOLES, key, caps);
    if |caps| == 2 {
      assert caps == [caps[0], caps[1]];
      assert Fit(caps, HOLES) <==> Carried(caps[0], caps[1]) by {
        assert Captures(HOLES[0], caps[0]) && Captures(HOLES[1], caps[1]) <==> Carried(caps[0], caps[1]);
      }
    }
  }

  /** A key reads as a pair exactly when it is the label printed from a pair that
      a label may carry; so reading inverts printing, and any match prints back. */
  lemma ReadInvertsLabel(t: Template, key: string, namespace: string, name: string)
    ensures Read(t, key) == Some([namespace, name]) <==>
              Carried(namespace, name) && key == Label(t, namespace, name)
  {
    var items := Compile(Text(t), HOLES);
    MatchIffLabel(t, key, [namespace, name]);
    FindIsMatch(items, key);
    if Matches(items, key, [namespace, name]) {
      MatchIsFound(items, key, [namespace, name]);
      var caps := Find(items, key).value;
      MatchIffLabel(t, key, caps);
      LabelInjective(t, namespace, name, caps[0], caps[1]);
      assert caps == [namespace, name];
    }
  }

  lemma ReadIsPair(t: Template, key: string)
    ensures Read(t, key).Some? ==>
              var caps := Read(t, key).value;
              |caps| == 2 && Carried(caps[0], caps[1]) && key == Label(t, caps[0], caps[1])
  {
    FindIsMatch(Compile(Text(t), HOLES), key);
    if Read(t, key).Some? {
      MatchIffLabel(t, key, Read(t, key).value);
    }
  }

  /** A dotted namespace does not come back: its text after the first dot moves
      into the name. */
  lemma DottedNamespaceShifts(t: Template, a: string, b: string, name: string)
    requires a != "" && '.' !in a && '\n' !in b && '\n' !in name
    ensures Read(t, Label(t, a + ("." + b), name)) == Some([a, b + ("." + name)])
  {
    LabelParts(t, a + ("." + b), name);
    LabelParts(t, a, b + ("." + name));
    PartsShift(Lead(t), a, b, name, Tail(t));
    ReadInvertsLabel(t, Label(t, a, b + ("." + name)), a, b + ("." + name));
  }

  /** No key reads under two templates. */
  lemma TemplatesDisjoint(t: Template, t': Template, key: string)
    requires Read(t, key).Some? && Read(t', key).Some?
    ensures t == t'
  {
    ReadIsPair(t, key);
    ReadIsPair(t', key);
    var caps, caps' := Read(t, key).value, Read(t', key).value;
    LabelParts(t, caps[0], caps[1]);
    LabelParts(t', caps'[0], caps'[1]);
    LabelEnds(t, caps[0], caps[1]);
    LabelEnds(t', caps'[0], caps'[1]);
  }

  lemma LabelEnds(t: Template, namespace: string, name: string)
    ensures var key := Label(t, namespace, name);
            && |key| > 0
            && (key[0] == 'k' <==> t.KmmReady?)
            && (key[|key| - 1] == 'r' <==> t.DriverType?)
  {
    LabelParts(t, namespace, name);
    var key := Label(t, namespace, name);
    assert key[0] == Lead(t)[0];
    assert key[|key| - 1] == Tail(t)[|Tail(t)| - 1];
  }

  /** HasNodeLabelTemplateMatch: the labels of a node are tried in any order. */
  method HasNodeLabelTemplateMatch(labels: set<string>, t: Template)
    returns (found: bool, key: string, namespace: string, name: string)
    ensures found <==> exists k :: k in labels && Read(t, k).Some?
    ensures found ==> key in labels && Carried(namespace, name) && key == Label(t, namespace, name)
    ensures !found ==> key == "" && namespace == "" && name == ""
  {
    var todo := labels;
    while todo != {}
      invariant todo <= labels
      invariant forall k :: k in labels && k !in todo ==> Read(t, k).None?
    {
      var k :| k in todo;
      var caps := Read(t, k);
      if caps.Some? && |caps.value| >= 2 {
        ReadIsPair(t, k);
        return true, k, caps.value[0], caps.value[1];
      }
      ReadIsPair(t, k);
      todo := todo - {k};
    }
    return false, "", "", "";
  }
}
