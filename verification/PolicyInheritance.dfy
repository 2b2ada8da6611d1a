/**
 Policy inheritance down a stack of scopes, which the gateway implements twice: as a merge
 of XML documents and as the resolution of parsed steps at run time.
 */
module PolicyInheritance {
  import opened Common

  datatype Section = Inbound | Backend | Outbound | OnError

  const SECTIONS := [Inbound, Backend, Outbound, OnError]

  /** An XML element; `content` stands for its attributes and text. */
  datatype Element = Element(tag: string, content: int, children: seq<Element>)

  /** The sections a policy document contains, each with its direct children. */
  type Document = map<Section, seq<Element>>

  predicate IsBase(e: Element) {
    e.tag == "base"
  }

  /** The element or something below it is a base marker. */
  predicate MentionsBase(e: Element)
    decreases e
  {
    IsBase(e) || exists i :: 0 <= i < |e.children| && MentionsBase(e.children[i])
  }

  /** Base markers occur only directly inside the section. */
  predicate DirectBases(section: seq<Element>) {
    forall i :: 0 <= i < |section| && !IsBase(section[i]) ==> !MentionsBase(section[i])
  }

  /** The element that a path of child numbers leads to. */
  function Descendant(e: Element, path: seq<nat>): Option<Element>
    decreases |path|
  {
    if path == [] then Some(e)
    else if path[0] < |e.children| then Descendant(e.children[path[0]], path[1..])
    else None
  }

  ghost predicate BaseAt(e: Element, path: seq<nat>) {
    Descendant(e, path).Some? && Descendant(e, path).value.tag == "base"
  }

  lemma {:induction false} MentionsAlong(e: Element, path: seq<nat>)
    requires BaseAt(e, path)
    ensures MentionsBase(e)
    decreases |path|
  {
    if path != [] {
      MentionsAlong(e.children[path[0]], path[1..]);
    }
  }

  lemma {:induction false} FindBase(e: Element) returns (path: seq<nat>)
    requires MentionsBase(e)
    ensures BaseAt(e, path)
    decreases e
  {
    path := [];
    if !IsBase(e) {
      var i :| 0 <= i < |e.children| && MentionsBase(e.children[i]);
      var rest := FindBase(e.children[i]);
      path := [i] + rest;
      assert path[1..] == rest;
    }
  }

  /** A section is refused exactly if some child has a base marker below it, at any depth. */
  lemma {:induction false} MergeFailsExactly(parent: seq<Element>, section: seq<Element>)
    ensures MergeChildren(parent, Some(section)).Err?
       <==> exists i, path :: 0 <= i < |section| && section[i].tag != "base" && BaseAt(section[i], path)
  {
    if MergeChildren(parent, Some(section)).Err? {
      var i :| 0 <= i < |section| && !IsBase(section[i]) && MentionsBase(section[i]);
      var path := FindBase(section[i]);
    } else {
      forall i, path | 0 <= i < |section| && section[i].tag != "base" ensures !BaseAt(section[i], path) {
        if BaseAt(section[i], path) {
          MentionsAlong(section[i], path);
        }
      }
    }
  }

  // ----- The XML merge -----

  /** The section with every base marker replaced by the parent's children. */
  function Expand<T>(section: seq<Element>, parent: seq<T>, own: Element -> T): seq<T> {
    if section == [] then []
    else (if IsBase(section[0]) then parent else [own(section[0])]) + Expand(section[1..], parent, own)
  }

  function Itself(e: Element): Element {
    e
  }

  /** `_merge_section_children`; the error is a base marker below a child. */
  function MergeChildren(parent: seq<Element>, source: Option<seq<Element>>): Result<seq<Element>, ()> {
    match source
    case None => Ok(parent)
    case Some(section) =>
      if DirectBases(section) then Ok(Expand(section, parent, Itself)) else Err(())
  }

  /** `_scope_section_source`: the documents of one scope, concatenated. */
  function ScopeSource(docs: seq<Document>, s: Section): Option<seq<Element>> {
    if docs == [] then None
    else
      var rest := ScopeSource(docs[1..], s);
      if s !in docs[0] then rest
      else Some(docs[0][s] + if rest.Some? then rest.value else [])
  }

  /** One section of a stack of scopes, broad to narrow. */
  function MergeSection(groups: seq<seq<Document>>, s: Section): Result<seq<Element>, ()> {
    if groups == [] then Ok([])
    else
      match MergeSection(groups[..|groups| - 1], s)
      case Ok(parent) => MergeChildren(parent, ScopeSource(groups[|groups| - 1], s))
      case Err(_) => Err(())
  }

  /** The merged document; it has all four sections. */
  ghost predicate Merges(groups: seq<seq<Document>>, merged: Document) {
    merged.Keys == {Inbound, Backend, Outbound, OnError} &&
    forall s :: s in merged ==> MergeSection(groups, s) == Ok(merged[s])
  }

  // ----- The run-time resolution -----

  /** A document and the label of the scope it was written at. */
  datatype Scoped = Scoped(scope: string, doc: Document)

  type Labelled = (string, Element)

  function Label(scope: string): Element -> Labelled {
    e => (scope, e)
  }

  predicate HasBase(section: seq<Element>) {
    exists i :: 0 <= i < |section| && IsBase(section[i])
  }

  /** One document on top of the steps resolved so far. */
  function Resolve(parent: seq<Labelled>, d: Scoped, s: Section): seq<Labelled> {
    if s !in d.doc then parent
    else if HasBase(d.doc[s]) then Expand(d.doc[s], parent, Label(d.scope))
    else LabelAll(d.doc[s], d.scope)
  }

  /** `_effective_section_steps` */
  function EffectiveSteps(docs: seq<Scoped>, s: Section): seq<Labelled> {
    if docs == [] then []
    else Resolve(EffectiveSteps(docs[..|docs| - 1], s), docs[|docs| - 1], s)
  }

  function LabelAll(section: seq<Element>, scope: string): seq<Labelled> {
    seq(|section|, i requires 0 <= i < |section| => (scope, section[i]))
  }

  function Erase(steps: seq<Labelled>): seq<Element> {
    seq(|steps|, i requires 0 <= i < |steps| => steps[i].1)
  }

  function Documents(docs: seq<Scoped>): (r: seq<Document>)
    ensures |r| == |docs| && forall i :: 0 <= i < |r| ==> r[i] == docs[i].doc
  {
    seq(|docs|, i requires 0 <= i < |docs| => docs[i].doc)
  }

  // ----- The two agree -----

  lemma {:induction false} ExpandWithoutBase(section: seq<Element>, parent: seq<Labelled>, scope: string)
    requires !HasBase(section)
    ensures Expand(section, parent, Label(scope)) == LabelAll(section, scope)
  {
    if section != [] {
      assert !IsBase(section[0]);
      assert !HasBase(section[1..]) by {
        assert forall i :: 0 <= i < |section[1..]| ==> section[1..][i] == section[i + 1];
      }
      ExpandWithoutBase(section[1..], parent, scope);
    }
  }

  lemma {:induction false} EraseExpand(section: seq<Element>, parent: seq<Labelled>, scope: string)
    ensures Erase(Expand(section, parent, Label(scope))) == Expand(section, Erase(parent), Itself)
  {
    if section != [] {
      EraseExpand(section[1..], parent, scope);
      var own := if IsBase(section[0]) then parent else [(scope, section[0])];
      var rest := Expand(section[1..], parent, Label(scope));
      assert Expand(section, parent, Label(scope)) == own + rest;
      assert Erase(own + rest) == Erase(own) + Erase(rest);
    }
  }

  lemma {:induction false} ResolveErases(parent: seq<Labelled>, d: Scoped, s: Section)
    requires s in d.doc && DirectBases(d.doc[s])
    ensures MergeChildren(Erase(parent), Some(d.doc[s])) == Ok(Erase(Resolve(parent, d, s)))
  {
    EraseExpand(d.doc[s], parent, d.scope);
    if !HasBase(d.doc[s]) {
      ExpandWithoutBase(d.doc[s], parent, d.scope);
    }
  }

  ghost predicate WellPlaced(docs: seq<Scoped>, s: Section) {
    forall i :: 0 <= i < |docs| && s in docs[i].doc ==> DirectBases(docs[i].doc[s])
  }

  /** At most one document of the group has the section. */
  ghost predicate SingleSource(docs: seq<Scoped>, s: Section) {
    forall i, j :: 0 <= i < j < |docs| ==> s !in docs[i].doc || s !in docs[j].doc
  }

  function Flatten(groups: seq<seq<Scoped>>): seq<Scoped> {
    if groups == [] then [] else Flatten(groups[..|groups| - 1]) + groups[|groups| - 1]
  }

  function Layers(groups: seq<seq<Scoped>>): (r: seq<seq<Document>>)
    ensures |r| == |groups| && forall i :: 0 <= i < |r| ==> r[i] == Documents(groups[i])
  {
    seq(|groups|, i requires 0 <= i < |groups| => Documents(groups[i]))
  }

  lemma {:induction false} LastSource(docs: seq<Document>, last: Document, s: Section)
    ensures ScopeSource(docs + [last], s) ==
            if s !in last then ScopeSource(docs, s)
            else Some((match ScopeSource(docs, s) case Some(e) => e case None => []) + last[s])
  {
    if docs == [] {
      assert docs + [last] == [last] && [last][1..] == [];
      assert s in last ==> last[s] + [] == [] + last[s];
    } else {
      assert (docs + [last])[1..] == docs[1..] + [last];
      LastSource(docs[1..], last, s);
      if s in docs[0] && s in last {
        var rest := match ScopeSource(docs[1..], s) case Some(e) => e case None => [];
        assert docs[0][s] + (rest + last[s]) == (docs[0][s] + rest) + last[s];
      }
    }
  }

  lemma {:induction false} NoSource(docs: seq<Scoped>, s: Section)
    requires forall i :: 0 <= i < |docs| ==> s !in docs[i].doc
    ensures ScopeSource(Documents(docs), s) == None
  {
    if docs != [] {
      NoSource(docs[1..], s);
      assert Documents(docs)[1..] == Documents(docs[1..]);
    }
  }

  /** A group with one source of the section resolves like one layer. */
  lemma {:induction false} GroupResolves(before: seq<Scoped>, group: seq<Scoped>, s: Section)
    requires WellPlaced(group, s) && SingleSource(group, s)
    ensures MergeChildren(Erase(EffectiveSteps(before, s)), ScopeSource(Documents(group), s))
         == Ok(Erase(EffectiveSteps(before + group, s)))
  {
    if group == [] {
      assert before + group == before && Documents(group) == [];
    } else {
      var first, last := group[..|group| - 1], group[|group| - 1];
      var docs := before + group;
      assert docs[..|docs| - 1] == before + first && docs[|docs| - 1] == last;
      assert Documents(group) == Documents(first) + [last.doc];
      LastSource(Documents(first), last.doc, s);
      GroupResolves(before, first, s);
      if s in last.doc {
        assert forall i :: 0 <= i < |first| ==> s !in group[i].doc;
        NoSource(first, s);
        assert [] + last.doc[s] == last.doc[s];
        ResolveErases(EffectiveSteps(before + first, s), last, s);
      }
    }
  }

  /**
   Both implementations compute the same section whenever, at each scope, at most one
   document has it; in particular with one document per scope.
   */
  lemma {:induction false} ImplementationsAgree(groups: seq<seq<Scoped>>, s: Section)
    requires forall i :: 0 <= i < |groups| ==> WellPlaced(groups[i], s) && SingleSource(groups[i], s)
    ensures MergeSection(Layers(groups), s) == Ok(Erase(EffectiveSteps(Flatten(groups), s)))
  {
    if groups != [] {
      var before, last := groups[..|groups| - 1], groups[|groups| - 1];
      ImplementationsAgree(before, s);
      assert Layers(groups)[..|groups| - 1] == Layers(before);
      GroupResolves(Flatten(before), last, s);
    } else {
      assert Layers(groups) == [];
      assert Erase(EffectiveSteps([], s)) == [];
    }
  }

  // ----- The condition is exact -----

  /** Documents that have the section exactly where `present` says, each with the one child `x`. */
  function Pattern(present: seq<bool>, s: Section, x: Element): (r: seq<Scoped>)
    ensures |r| == |present|
    ensures forall i :: 0 <= i < |r| ==> r[i] == Scoped("", if present[i] then map[s := [x]] else map[])
  {
    seq(|present|, i requires 0 <= i < |present| => Scoped("", if present[i] then map[s := [x]] else map[]))
  }

  function Count(present: seq<bool>): nat {
    if present == [] then 0 else Count(present[..|present| - 1]) + if present[|present| - 1] then 1 else 0
  }

  lemma {:induction false} PatternSource(present: seq<bool>, s: Section, x: Element)
    ensures var source := ScopeSource(Documents(Pattern(present, s, x)), s);
            (source.Some? <==> Count(present) > 0) && (source.Some? ==> source.value == seq(Count(present), _ => x))
  {
    if present != [] {
      var n := |present| - 1;
      PatternSource(present[..n], s, x);
      var docs, before := Pattern(present, s, x), Pattern(present[..n], s, x);
      assert Documents(docs) == Documents(before) + [docs[n].doc];
      LastSource(Documents(before), docs[n].doc, s);
    }
  }

  /** At run time the last document that has the section decides alone. */
  lemma {:induction false} PatternSteps(before: seq<Scoped>, present: seq<bool>, s: Section, x: Element)
    ensures |EffectiveSteps(before + Pattern(present, s, x), s)|
         == if Count(present) > 0 && !IsBase(x) then 1 else |EffectiveSteps(before, s)|
  {
    var docs := before + Pattern(present, s, x);
    if present == [] {
      assert docs == before;
    } else {
      var n := |present| - 1;
      PatternSteps(before, present[..n], s, x);
      assert docs[..|docs| - 1] == before + Pattern(present[..n], s, x);
      assert docs[|docs| - 1] == Pattern(present, s, x)[n];
      var steps := EffectiveSteps(docs[..|docs| - 1], s);
      assert present[n] ==> Resolve(steps, docs[|docs| - 1], s) == if IsBase(x) then steps else [("", x)] by {
        assert HasBase([x]) <==> IsBase([x][0]);
        assert Expand([x][1..], steps, Label("")) == [];
      }
    }
  }

  lemma {:induction false} ExpandSteps(x: Element, n: nat, parent: seq<Element>)
    requires !IsBase(x)
    ensures Expand(seq(n, _ => x), parent, Itself) == seq(n, _ => x)
  {
    if n > 0 {
      ExpandSteps(x, n - 1, parent);
      assert seq(n, _ => x)[1..] == seq(n - 1, _ => x);
    }
  }

  /** The stack has the section exactly where `shape` says, with base markers well placed. */
  ghost predicate Shaped(groups: seq<seq<Scoped>>, shape: seq<seq<bool>>, s: Section) {
    && |groups| == |shape|
    && forall g :: 0 <= g < |groups| ==> WellPlaced(groups[g], s) && Shows(groups[g], shape[g], s)
  }

  ghost predicate Shows(docs: seq<Scoped>, present: seq<bool>, s: Section) {
    |docs| == |present| && forall i :: 0 <= i < |docs| ==> (s in docs[i].doc <==> present[i])
  }

  /** Some scope has two documents with the section. */
  ghost predicate Shared(shape: seq<seq<bool>>) {
    exists g :: 0 <= g < |shape| && Count(shape[g]) >= 2
  }

  /**
   As soon as two documents of one scope have the section, there are contents for which the
   merged document is not what the gateway runs: the merge keeps the children of both, the
   run-time resolution those of the last, and later scopes can pass both on unchanged.
   */
  lemma {:induction false} SharedSectionDisagrees(shape: seq<seq<bool>>, s: Section) returns (groups: seq<seq<Scoped>>)
    ensures Shaped(groups, shape, s)
    ensures MergeSection(Layers(groups), s).Ok?
    ensures Shared(shape) ==> |MergeSection(Layers(groups), s).value| != |EffectiveSteps(Flatten(groups), s)|
  {
    groups := [];
    if shape == [] {
      assert Layers(groups) == [];
    } else {
      hide MergeChildren, MergeSection, ScopeSource, EffectiveSteps, Count, Shaped, Layers, Flatten, Documents, Pattern, Shared;
      var n := |shape| - 1;
      var before := SharedSectionDisagrees(shape[..n], s);
      var x := Element(if Count(shape[n]) >= 2 then "step" else "base", 0, []);
      groups := before + [Pattern(shape[n], s, x)];
      StackTop(before, Pattern(shape[n], s, x), s);
      ShapedTop(before, shape, s, x);
      PatternSteps(Flatten(before), shape[n], s, x);
      LastLayer(MergeSection(Layers(before), s).value, shape[n], s, x);
    }
  }

  /** Both implementations put one more scope on top. */
  lemma {:induction false} StackTop(before: seq<seq<Scoped>>, top: seq<Scoped>, s: Section)
    requires MergeSection(Layers(before), s).Ok?
    ensures var groups := before + [top];
            && MergeSection(Layers(groups), s) == MergeChildren(MergeSection(Layers(before), s).value, ScopeSource(Documents(top), s))
            && Flatten(groups) == Flatten(before) + top
  {
    hide MergeChildren, ScopeSource, Documents;
    var groups := before + [top];
    assert groups[..|groups| - 1] == before && Layers(groups)[..|groups| - 1] == Layers(before);
  }

  lemma {:induction false} ShapedTop(before: seq<seq<Scoped>>, shape: seq<seq<bool>>, s: Section, x: Element)
    requires shape != [] && x.children == [] && Shaped(before, shape[..|shape| - 1], s)
    ensures Shaped(before + [Pattern(shape[|shape| - 1], s, x)], shape, s)
    ensures Shared(shape) && Count(shape[|shape| - 1]) < 2 ==> Shared(shape[..|shape| - 1])
  {
    hide Count;
    var n := |shape| - 1;
    assert forall g :: 0 <= g < n ==> shape[..n][g] == shape[g];
    assert WellPlaced(Pattern(shape[n], s, x), s);
  }

  lemma {:induction false} LastLayer(parent: seq<Element>, present: seq<bool>, s: Section, x: Element)
    requires x.children == [] && (IsBase(x) ==> Count(present) <= 1)
    ensures MergeChildren(parent, ScopeSource(Documents(Pattern(present, s, x)), s))
         == Ok(if IsBase(x) || Count(present) == 0 then parent else seq(Count(present), _ => x))
  {
    PatternSource(present, s, x);
    if IsBase(x) {
      assert Count(present) == 1 ==> seq(Count(present), _ => x) == [x];
      assert Expand([x], parent, Itself) == parent + Expand([x][1..], parent, Itself) == parent;
    } else {
      ExpandSteps(x, Count(present), parent);
    }
  }

  lemma {:induction false} CountSingle(docs: seq<Scoped>, present: seq<bool>, s: Section)
    requires Shows(docs, present, s) && Count(present) <= 1
    ensures SingleSource(docs, s)
    ensures Count(present) == 0 ==> forall i :: 0 <= i < |docs| ==> s !in docs[i].doc
  {
    if docs != [] {
      var n := |docs| - 1;
      CountSingle(docs[..n], present[..n], s);
      assert forall i :: 0 <= i < n ==> docs[..n][i] == docs[i];
    }
  }

  /**
   Knowing only which documents have the section, the two implementations agree on every
   stack if and only if no scope has two documents with it.
   */
  lemma {:induction false} AgreementExact(shape: seq<seq<bool>>, s: Section)
    ensures (forall groups :: Shaped(groups, shape, s) ==>
               MergeSection(Layers(groups), s) == Ok(Erase(EffectiveSteps(Flatten(groups), s))))
       <==> !Shared(shape)
  {
    if Shared(shape) {
      var groups := SharedSectionDisagrees(shape, s);
      assert Shaped(groups, shape, s);
    } else {
      forall groups | Shaped(groups, shape, s)
        ensures MergeSection(Layers(groups), s) == Ok(Erase(EffectiveSteps(Flatten(groups), s)))
      {
        forall g | 0 <= g < |groups| ensures WellPlaced(groups[g], s) && SingleSource(groups[g], s) {
          CountSingle(groups[g], shape[g], s);
        }
        ImplementationsAgree(groups, s);
      }
    }
  }

  // ----- Merging a prefix first -----

  predicate BaseFree(section: seq<Element>) {
    forall i :: 0 <= i < |section| ==> !MentionsBase(section[i])
  }

  lemma {:induction false} ExpandBaseFree(section: seq<Element>, parent: seq<Element>)
    requires DirectBases(section) && BaseFree(parent)
    ensures BaseFree(Expand(section, parent, Itself))
  {
    if section != [] {
      assert DirectBases(section[1..]);
      ExpandBaseFree(section[1..], parent);
    }
  }

  lemma {:induction false} MergedBaseFree(groups: seq<seq<Document>>, s: Section)
    ensures MergeSection(groups, s).Ok? ==> BaseFree(MergeSection(groups, s).value)
  {
    if groups != [] {
      MergedBaseFree(groups[..|groups| - 1], s);
      var source := ScopeSource(groups[|groups| - 1], s);
      if MergeSection(groups, s).Ok? && source.Some? {
        ExpandBaseFree(source.value, MergeSection(groups[..|groups| - 1], s).value);
      }
    }
  }

  lemma {:induction false} ExpandNothing(section: seq<Element>)
    requires BaseFree(section)
    ensures Expand(section, [], Itself) == section
  {
    if section != [] {
      assert BaseFree(section[1..]);
      ExpandNothing(section[1..]);
    }
  }

  /** A merged prefix of the stack can stand in for the prefix. */
  lemma {:induction false} MergePrefixFirst(prefix: seq<seq<Document>>, merged: Document, suffix: seq<seq<Document>>, s: Section)
    requires Merges(prefix, merged) && s in merged
    ensures MergeSection([[merged]] + suffix, s) == MergeSection(prefix + suffix, s)
    decreases |suffix|
  {
    if suffix == [] {
      assert prefix + suffix == prefix;
      var one := [[merged]] + suffix;
      assert one[..|one| - 1] == [] && one[|one| - 1] == [merged];
      assert [merged][1..] == [] && merged[s] + [] == merged[s];
      MergedBaseFree(prefix, s);
      assert DirectBases(merged[s]);
      ExpandNothing(merged[s]);
      assert ScopeSource([merged], s) == Some(merged[s]);
      assert MergeSection(one, s) == Ok(merged[s]);
    } else {
      var n := |suffix| - 1;
      MergePrefixFirst(prefix, merged, suffix[..n], s);
      assert ([[merged]] + suffix)[..n + 1] == [[merged]] + suffix[..n];
      assert (prefix + suffix)[..|prefix| + n] == prefix + suffix[..n];
    }
  }

  // ----- Where each step comes from and how often it runs -----

  /** The steps of a section by origin: document `i` and place `j` in its section. */
  function Origins(docs: seq<Scoped>, s: Section): seq<(nat, nat)> {
    if docs == [] then []
    else
      var n := |docs| - 1;
      var parent := Origins(docs[..n], s);
      if s !in docs[n].doc then parent else OriginsFrom(docs[n].doc[s], parent, n, 0)
  }

  function OriginsFrom(section: seq<Element>, parent: seq<(nat, nat)>, i: nat, j: nat): seq<(nat, nat)> {
    if section == [] then []
    else (if IsBase(section[0]) then parent else [(i, j)]) + OriginsFrom(section[1..], parent, i, j + 1)
  }

  function BaseCount(section: seq<Element>): nat {
    if section == [] then 0 else (if IsBase(section[0]) then 1 else 0) + BaseCount(section[1..])
  }

  /** The product of the base counts of the documents after `i` that have the section. */
  function BaseProduct(docs: seq<Scoped>, s: Section, i: nat): nat
    requires i < |docs|
  {
    var n := |docs| - 1;
    if n == i then 1
    else if s !in docs[n].doc then BaseProduct(docs[..n], s, i)
    else BaseCount(docs[n].doc[s]) * BaseProduct(docs[..n], s, i)
  }

  ghost predicate Authored(docs: seq<Scoped>, s: Section, o: (nat, nat)) {
    o.0 < |docs| && s in docs[o.0].doc && o.1 < |docs[o.0].doc[s]| && !IsBase(docs[o.0].doc[s][o.1])
  }

  /** The label of an origin. */
  ghost predicate Labels(docs: seq<Scoped>, s: Section, steps: seq<Labelled>, origins: seq<(nat, nat)>) {
    && |steps| == |origins|
    && forall k :: 0 <= k < |steps| ==>
         Authored(docs, s, origins[k]) &&
         steps[k] == (docs[origins[k].0].scope, docs[origins[k].0].doc[s][origins[k].1])
  }

  lemma {:induction false} ExpandOrigins(
      docs: seq<Scoped>, s: Section, parent: seq<Labelled>, origins: seq<(nat, nat)>, j: nat)
    requires docs != [] && s in docs[|docs| - 1].doc && j <= |docs[|docs| - 1].doc[s]|
    requires Labels(docs, s, parent, origins)
    ensures var last := docs[|docs| - 1];
            Labels(docs, s, Expand(last.doc[s][j..], parent, Label(last.scope)),
                   OriginsFrom(last.doc[s][j..], origins, |docs| - 1, j))
    decreases |docs[|docs| - 1].doc[s]| - j
  {
    var last := docs[|docs| - 1];
    if j < |last.doc[s]| {
      ExpandOrigins(docs, s, parent, origins, j + 1);
      assert last.doc[s][j..][1..] == last.doc[s][j + 1..];
    }
  }

  /** Every effective step is an authored step, labelled with the scope of the document it was written in. */
  lemma {:induction false} StepsKeepScope(docs: seq<Scoped>, s: Section)
    ensures Labels(docs, s, EffectiveSteps(docs, s), Origins(docs, s))
  {
    if docs != [] {
      var n := |docs| - 1;
      var last := docs[n];
      StepsKeepScope(docs[..n], s);
      var parent, origins := EffectiveSteps(docs[..n], s), Origins(docs[..n], s);
      assert Labels(docs, s, parent, origins);
      if s in last.doc {
        ExpandOrigins(docs, s, parent, origins, 0);
        assert last.doc[s][0..] == last.doc[s];
        if !HasBase(last.doc[s]) {
          ExpandWithoutBase(last.doc[s], parent, last.scope);
        }
      }
    }
  }

  lemma {:induction false} CountOrigins(section: seq<Element>, parent: seq<(nat, nat)>, i: nat, j: nat, o: (nat, nat))
    ensures multiset(OriginsFrom(section, parent, i, j))[o]
         == BaseCount(section) * multiset(parent)[o]
            + if o.0 == i && j <= o.1 < j + |section| && !IsBase(section[o.1 - j]) then 1 else 0
  {
    if section != [] {
      CountOrigins(section[1..], parent, i, j + 1, o);
      var m := multiset(parent)[o];
      assert (1 + BaseCount(section[1..])) * m == m + BaseCount(section[1..]) * m;
    }
  }

  /**
   An authored step runs exactly as often as the product of the base counts of the later
   documents that have its section: not at all when one of them drops its parent.
   */
  lemma {:induction false} StepMultiplicity(docs: seq<Scoped>, s: Section, o: (nat, nat))
    requires Authored(docs, s, o)
    ensures multiset(Origins(docs, s))[o] == BaseProduct(docs, s, o.0)
  {
    hide OriginsFrom, BaseCount;
    var n := |docs| - 1;
    var last := docs[n];
    var parent := Origins(docs[..n], s);
    if s in last.doc {
      CountOrigins(last.doc[s], parent, n, 0, o);
    }
    if o.0 < n {
      assert Authored(docs[..n], s, o);
      StepMultiplicity(docs[..n], s, o);
      assert multiset(parent)[o] == BaseProduct(docs[..n], s, o.0);
    } else {
      StepsKeepScope(docs[..n], s);
      assert multiset(parent)[o] == 0 by { assert o !in parent; }
      assert BaseCount(last.doc[s]) * 0 == 0;
    }
  }

  // ----- The loops of the source -----

  lemma {:induction false} ExpandLast<T>(section: seq<Element>, last: Element, parent: seq<T>, own: Element -> T)
    ensures Expand(section + [last], parent, own)
         == Expand(section, parent, own) + if IsBase(last) then parent else [own(last)]
  {
    if section == [] {
      assert section + [last] == [last] && [last][1..] == [];
    } else {
      assert (section + [last])[1..] == section[1..] + [last];
      ExpandLast(section[1..], last, parent, own);
    }
  }

  lemma {:induction false} ExpandUpTo<T>(section: seq<Element>, i: nat, parent: seq<T>, own: Element -> T)
    requires i < |section|
    ensures Expand(section[..i + 1], parent, own)
         == Expand(section[..i], parent, own) + if IsBase(section[i]) then parent else [own(section[i])]
  {
    assert section[..i + 1] == section[..i] + [section[i]];
    ExpandLast(section[..i], section[i], parent, own);
  }

  /** `_replace_base_steps` */
  method ReplaceBaseSteps(local: seq<Element>, parent: seq<Labelled>, scope: string) returns (out: seq<Labelled>)
    ensures out == Expand(local, parent, Label(scope))
  {
    out := [];
    for i := 0 to |local|
      invariant out == Expand(local[..i], parent, Label(scope))
    {
      ExpandUpTo(local, i, parent, Label(scope));
      if IsBase(local[i]) {
        out := out + parent;
      } else {
        out := out + [(scope, local[i])];
      }
    }
    assert local[..|local|] == local;
  }

  /** `_effective_section_steps` */
  method EffectiveSectionSteps(docs: seq<Scoped>, s: Section) returns (effective: seq<Labelled>)
    ensures effective == EffectiveSteps(docs, s)
  {
    effective := [];
    for i := 0 to |docs|
      invariant effective == EffectiveSteps(docs[..i], s)
    {
      assert docs[..i + 1][..i] == docs[..i];
      if s in docs[i].doc {
        var local := docs[i].doc[s];
        if HasBase(local) {
          effective := ReplaceBaseSteps(local, effective, docs[i].scope);
        } else {
          effective := LabelAll(local, docs[i].scope);
        }
      }
    }
    assert docs[..|docs|] == docs;
  }

  /** `_merge_section_children` */
  method MergeSectionChildren(parent: seq<Element>, source: Option<seq<Element>>) returns (r: Result<seq<Element>, ()>)
    ensures r == MergeChildren(parent, source)
  {
    if source == None {
      return Ok(parent);
    }
    var section := source.value;
    if !DirectBases(section) {
      return Err(());
    }
    var merged := [];
    for i := 0 to |section|
      invariant merged == Expand(section[..i], parent, Itself)
    {
      ExpandUpTo(section, i, parent, Itself);
      if IsBase(section[i]) {
        merged := merged + parent;
      } else {
        merged := merged + [section[i]];
      }
    }
    assert section[..|section|] == section;
    return Ok(merged);
  }

  lemma {:induction false} ErrorStays(groups: seq<seq<Document>>, i: nat, s: Section)
    requires i <= |groups| && MergeSection(groups[..i], s).Err?
    ensures MergeSection(groups, s).Err?
  {
    if i < |groups| {
      var n := |groups| - 1;
      assert groups[..n][..i] == groups[..i];
      ErrorStays(groups[..n], i, s);
    } else {
      assert groups[..i] == groups;
    }
  }

  /** Sections before the `k`-th are merged up to and including layer `i`, the others up to layer `i`. */
  ghost predicate Progress(groups: seq<seq<Document>>, effective: Document, i: nat, k: nat)
    requires i <= |groups| && (k > 0 ==> i < |groups|)
  {
    && effective.Keys == {Inbound, Backend, Outbound, OnError}
    && forall j :: 0 <= j < |SECTIONS| ==>
         MergeSection(groups[..if j < k then i + 1 else i], SECTIONS[j]) == Ok(effective[SECTIONS[j]])
  }

  /** `_merge_policy_scopes` without the rendering to text. */
  method MergePolicyScopes(groups: seq<seq<Document>>) returns (r: Result<Document, ()>)
    ensures r.Ok? ==> Merges(groups, r.value)
    ensures r.Err? ==> exists s :: MergeSection(groups, s).Err?
  {
    hide MergeSection;
    var effective: Document := map[Inbound := [], Backend := [], Outbound := [], OnError := []];
    MergeNothing();
    for i := 0 to |groups|
      invariant Progress(groups, effective, i, 0)
    {
      for k := 0 to |SECTIONS|
        invariant Progress(groups, effective, i, k)
      {
        var s := SECTIONS[k];
        var merged := MergeSectionChildren(effective[s], ScopeSource(groups[i], s));
        MergeStep(groups, i, s);
        if merged.Err? {
          ErrorStays(groups, i + 1, s);
          return Err(());
        }
        effective := effective[s := merged.value];
      }
    }
    assert groups[..|groups|] == groups;
    forall s | s in effective ensures MergeSection(groups, s) == Ok(effective[s]) {
      assert s == SECTIONS[0] || s == SECTIONS[1] || s == SECTIONS[2] || s == SECTIONS[3];
    }
    return Ok(effective);
  }

  lemma {:induction false} MergeNothing()
    ensures forall s, groups: seq<seq<Document>> :: MergeSection(groups[..0], s) == Ok([])
  {
  }

  lemma {:induction false} MergeStep(groups: seq<seq<Document>>, i: nat, s: Section)
    requires i < |groups| && MergeSection(groups[..i], s).Ok?
    ensures MergeSection(groups[..i + 1], s)
         == MergeChildren(MergeSection(groups[..i], s).value, ScopeSource(groups[i], s))
  {
    assert groups[..i + 1][..i] == groups[..i];
  }
}
