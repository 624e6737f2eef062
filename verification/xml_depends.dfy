/**
  python/XML_Depends_V3.py: numbers the objects of a dependency report and
  writes a Mermaid flowchart with one node per object, one node per
  unresolved reference and one edge per use.

  The parsed document is given as the elements `.//Object` finds, in the
  order it finds them (nested ones included): each with the text of its
  first `Name` child (`None` when there is no `Name` child or it has no
  text) and its `Uses` children, each holding the texts of its `Object`
  and `UnresolvedObject` children.
*/
module XmlDepends {
  import opened Wrappers
  import opened Text
  import opened Dicts

  datatype UsesElem = UsesElem(objects: seq<Option<string>>, unresolved: seq<Option<string>>)

  datatype ObjectElem = ObjectElem(name: Option<string>, uses: seq<UsesElem>)

  /** One line of the Mermaid script after its `graph TD;` header. */
  datatype Line =
    | UnresolvedNode(id: string, name: string)
    | ObjectNode(id: string, name: string)
    | Edge(from: string, to: string)

  const Header: string := "graph TD;"

  function Render(l: Line): (r: string)
  {
    match l
    case UnresolvedNode(id, name) => id + "[\"" + name + " (Unresolved)\"]"
    case ObjectNode(id, name) => id + "[\"" + name + "\"]"
    case Edge(from, to) => from + " --> " + to
  }

  function RenderAll(lines: seq<Line>): (r: seq<string>)
    ensures |r| == |lines|
    ensures forall k :: 0 <= k < |lines| ==> r[k] == Render(lines[k])
  {
    seq(|lines|, k requires 0 <= k < |lines| => Render(lines[k]))
  }

  /** `f"obj_{n}"` */
  function ObjId(n: nat): (r: string)
  {
    "obj_" + Decimal(n)
  }

  /** `f"unresolved_{n}"` */
  function UnresolvedId(n: nat): (r: string)
  {
    "unresolved_" + Decimal(n)
  }

  /** A text Python treats as true: present and not empty. */
  predicate IsNamed(text: Option<string>)
  {
    text.Some? && text.value != ""
  }

  /** The names of the named objects, in order. */
  function NamedNames(objs: seq<ObjectElem>): (r: seq<string>)
  {
    if objs == [] then []
    else
      var last := objs[|objs| - 1];
      NamedNames(objs[..|objs| - 1]) + (if IsNamed(last.name) then [last.name.value] else [])
  }

  /** `id_map`, the counter of the pass that is running and the node lines it wrote. */
  datatype Registry = Registry(idMap: map<string, string>, counter: nat, nodes: seq<Line>)

  /** The first pass: each named object takes the next `obj_` number under its name. */
  function FirstPass(objs: seq<ObjectElem>): (r: Registry)
  {
    if objs == [] then Registry(map[], 0, [])
    else
      var r := FirstPass(objs[..|objs| - 1]);
      var name := objs[|objs| - 1].name;
      if IsNamed(name) then Registry(r.idMap[name.value := ObjId(r.counter + 1)], r.counter + 1, [])
      else r
  }

  function BlockTexts(uses: seq<UsesElem>): (r: seq<Option<string>>)
  {
    if uses == [] then [] else BlockTexts(uses[..|uses| - 1]) + uses[|uses| - 1].unresolved
  }

  /** What `.//Object/Uses/UnresolvedObject` finds: every Uses block of every object, in order. */
  function UnresolvedTexts(objs: seq<ObjectElem>): (r: seq<Option<string>>)
  {
    if objs == [] then [] else UnresolvedTexts(objs[..|objs| - 1]) + BlockTexts(objs[|objs| - 1].uses)
  }

  /** The unresolved pass: a name not yet in the map takes the next `unresolved_` number and a node. */
  function UnresolvedPass(ids: map<string, string>, texts: seq<Option<string>>): (r: Registry)
  {
    if texts == [] then Registry(ids, 0, [])
    else
      var r := UnresolvedPass(ids, texts[..|texts| - 1]);
      var text := texts[|texts| - 1];
      if IsNamed(text) && text.value !in r.idMap then
        var id := UnresolvedId(r.counter + 1);
        Registry(r.idMap[text.value := id], r.counter + 1, r.nodes + [UnresolvedNode(id, text.value)])
      else r
  }

  /** An edge from `from` to each reference whose text is in the map. */
  function EdgeLines(ids: map<string, string>, from: string, refs: seq<Option<string>>): (r: seq<Line>)
  {
    if refs == [] then []
    else
      var text := refs[|refs| - 1];
      EdgeLines(ids, from, refs[..|refs| - 1])
      + (if text.Some? && text.value in ids then [Edge(from, ids[text.value])] else [])
  }

  /**
    The lines one object contributes in the second pass: its node, then its
    edges through the first Uses block, `Object` uses before
    `UnresolvedObject` ones; nothing when it has no name or no id.
  */
  function ObjectLines(ids: map<string, string>, obj: ObjectElem): (r: seq<Line>)
  {
    if !IsNamed(obj.name) || obj.name.value !in ids || ids[obj.name.value] == "" then []
    else
      var id := ids[obj.name.value];
      [ObjectNode(id, obj.name.value)]
      + (if obj.uses == [] then []
         else EdgeLines(ids, id, obj.uses[0].objects) + EdgeLines(ids, id, obj.uses[0].unresolved))
  }

  function SecondPass(ids: map<string, string>, objs: seq<ObjectElem>): (r: seq<Line>)
  {
    if objs == [] then [] else SecondPass(ids, objs[..|objs| - 1]) + ObjectLines(ids, objs[|objs| - 1])
  }

  /** `id_map` once both numbering passes are done. */
  function IdMap(objs: seq<ObjectElem>): (r: map<string, string>)
  {
    UnresolvedPass(FirstPass(objs).idMap, UnresolvedTexts(objs)).idMap
  }

  /** Every line after the header, in the order the script appends them. */
  function MermaidLines(objs: seq<ObjectElem>): (r: seq<Line>)
  {
    UnresolvedPass(FirstPass(objs).idMap, UnresolvedTexts(objs)).nodes + SecondPass(IdMap(objs), objs)
  }

  function MermaidScript(objs: seq<ObjectElem>): (r: string)
  {
    Join("\n", [Header] + RenderAll(MermaidLines(objs)))
  }

  lemma RenderAllAppend(a: seq<Line>, b: seq<Line>)
    ensures RenderAll(a + b) == RenderAll(a) + RenderAll(b)
  {
  }

  // ---------------------------------------------------------------------
  // The script's loops

  /** The first pass over `.//Object`. */
  method AssignObjectIds(objs: seq<ObjectElem>) returns (idMap: map<string, string>, objectCounter: nat)
    ensures Registry(idMap, objectCounter, []) == FirstPass(objs)
  {
    idMap := map[];
    objectCounter := 0;
    var i := 0;
    while i < |objs|
      invariant i <= |objs|
      invariant Registry(idMap, objectCounter, []) == FirstPass(objs[..i])
    {
      var objName := objs[i].name;
      assert objs[..i + 1][..i] == objs[..i];
      if IsNamed(objName) {
        objectCounter := objectCounter + 1;
        var objId := "obj_" + Decimal(objectCounter);
        idMap := idMap[objName.value := objId];
      }
      i := i + 1;
    }
    assert objs[..i] == objs;
  }

  /** A node for each unresolved name not yet in the map. */
  method AddUnresolvedNodes(objs: seq<ObjectElem>, idMap: map<string, string>, mermaidScript: seq<string>)
    returns (idMap': map<string, string>, mermaidScript': seq<string>)
    ensures idMap' == UnresolvedPass(idMap, UnresolvedTexts(objs)).idMap
    ensures mermaidScript' == mermaidScript + RenderAll(UnresolvedPass(idMap, UnresolvedTexts(objs)).nodes)
  {
    var unresolvedObjs := UnresolvedTexts(objs);
    idMap' := idMap;
    mermaidScript' := mermaidScript;
    var unresolvedCounter := 0;
    ghost var nodes: seq<Line> := [];
    var j := 0;
    while j < |unresolvedObjs|
      invariant j <= |unresolvedObjs|
      invariant UnresolvedPass(idMap, unresolvedObjs[..j]) == Registry(idMap', unresolvedCounter, nodes)
      invariant mermaidScript' == mermaidScript + RenderAll(nodes)
    {
      var unresolvedName := unresolvedObjs[j];
      assert unresolvedObjs[..j + 1][..j] == unresolvedObjs[..j];
      if IsNamed(unresolvedName) && unresolvedName.value !in idMap' {
        unresolvedCounter := unresolvedCounter + 1;
        var unresolvedId := "unresolved_" + Decimal(unresolvedCounter);
        idMap' := idMap'[unresolvedName.value := unresolvedId];
        RenderAllAppend(nodes, [UnresolvedNode(unresolvedId, unresolvedName.value)]);
        mermaidScript' := mermaidScript' + [unresolvedId + "[\"" + unresolvedName.value + " (Unresolved)\"]"];
        nodes := nodes + [UnresolvedNode(unresolvedId, unresolvedName.value)];
      }
      j := j + 1;
    }
    assert unresolvedObjs[..j] == unresolvedObjs;
  }

  /** One of the two inner loops, an edge per reference found in the map. */
  method AddEdges(idMap: map<string, string>, objId: string, refs: seq<Option<string>>, mermaidScript: seq<string>)
    returns (mermaidScript': seq<string>)
    ensures mermaidScript' == mermaidScript + RenderAll(EdgeLines(idMap, objId, refs))
  {
    mermaidScript' := mermaidScript;
    var k := 0;
    while k < |refs|
      invariant k <= |refs|
      invariant mermaidScript' == mermaidScript + RenderAll(EdgeLines(idMap, objId, refs[..k]))
    {
      assert refs[..k + 1][..k] == refs[..k];
      var used := refs[k];
      RenderAllAppend(EdgeLines(idMap, objId, refs[..k]),
                      if used.Some? && used.value in idMap then [Edge(objId, idMap[used.value])] else []);
      if used.Some? && used.value in idMap {
        mermaidScript' := mermaidScript' + [objId + " --> " + idMap[used.value]];
      }
      k := k + 1;
    }
    assert refs[..k] == refs;
  }

  /** For one object: its node, then its edges. */
  method AddObjectAndEdges(idMap: map<string, string>, obj: ObjectElem, mermaidScript: seq<string>)
    returns (mermaidScript': seq<string>)
    ensures mermaidScript' == mermaidScript + RenderAll(ObjectLines(idMap, obj))
  {
    mermaidScript' := mermaidScript;
    var objName := obj.name;
    if !IsNamed(objName) || objName.value !in idMap || idMap[objName.value] == "" {
      return;
    }
    var objId := idMap[objName.value];
    var node := [ObjectNode(objId, objName.value)];
    assert RenderAll(node) == [objId + "[\"" + objName.value + "\"]"];
    mermaidScript' := mermaidScript' + [objId + "[\"" + objName.value + "\"]"];
    if obj.uses != [] {
      var usesElem := obj.uses[0];
      ghost var usedEdges := EdgeLines(idMap, objId, usesElem.objects);
      ghost var unresolvedEdges := EdgeLines(idMap, objId, usesElem.unresolved);
      assert ObjectLines(idMap, obj) == node + usedEdges + unresolvedEdges;
      RenderAllAppend(node, usedEdges);
      RenderAllAppend(node + usedEdges, unresolvedEdges);
      mermaidScript' := AddEdges(idMap, objId, usesElem.objects, mermaidScript');
      mermaidScript' := AddEdges(idMap, objId, usesElem.unresolved, mermaidScript');
    } else {
      assert ObjectLines(idMap, obj) == node;
    }
  }

  lemma SecondPassStep(ids: map<string, string>, objs: seq<ObjectElem>, i: nat)
    requires i < |objs|
    ensures SecondPass(ids, objs[..i + 1]) == SecondPass(ids, objs[..i]) + ObjectLines(ids, objs[i])
  {
    assert objs[..i + 1][..i] == objs[..i];
  }

  lemma AddObjectLinesStep(ids: map<string, string>, objs: seq<ObjectElem>, i: nat,
                            start: seq<string>, before: seq<string>, after: seq<string>)
    requires i < |objs|
    requires before == start + RenderAll(SecondPass(ids, objs[..i]))
    requires after == before + RenderAll(ObjectLines(ids, objs[i]))
    ensures after == start + RenderAll(SecondPass(ids, objs[..i + 1]))
  {
    var rendered := RenderAll(SecondPass(ids, objs[..i]));
    var added := RenderAll(ObjectLines(ids, objs[i]));
    SecondPassStep(ids, objs, i);
    RenderAllAppend(SecondPass(ids, objs[..i]), ObjectLines(ids, objs[i]));
    assert RenderAll(SecondPass(ids, objs[..i + 1])) == rendered + added;
    AppendAssociative(start, rendered, added);
  }

  lemma AppendAssociative(a: seq<string>, b: seq<string>, c: seq<string>)
    ensures (a + b) + c == a + (b + c)
  {
  }

  /** The second pass: a node and its edges per named object. */
  method AddObjectLines(objs: seq<ObjectElem>, idMap: map<string, string>, mermaidScript: seq<string>)
    returns (mermaidScript': seq<string>)
    ensures mermaidScript' == mermaidScript + RenderAll(SecondPass(idMap, objs))
  {
    mermaidScript' := mermaidScript;
    var i := 0;
    while i < |objs|
      invariant i <= |objs|
      invariant mermaidScript' == mermaidScript + RenderAll(SecondPass(idMap, objs[..i]))
    {
      ghost var before := mermaidScript';
      mermaidScript' := AddObjectAndEdges(idMap, objs[i], mermaidScript');
      AddObjectLinesStep(idMap, objs, i, mermaidScript, before, mermaidScript');
      i := i + 1;
    }
    assert objs[..i] == objs;
  }

  /** The whole script: header, unresolved nodes, object nodes and edges, joined by newlines. */
  method BuildMermaid(objs: seq<ObjectElem>) returns (mermaidOutput: string)
    ensures mermaidOutput == MermaidScript(objs)
  {
    var mermaidScript := [Header];
    var idMap, objectCounter := AssignObjectIds(objs);
    idMap, mermaidScript := AddUnresolvedNodes(objs, idMap, mermaidScript);
    mermaidScript := AddObjectLines(objs, idMap, mermaidScript);
    RenderAllAppend(UnresolvedPass(FirstPass(objs).idMap, UnresolvedTexts(objs)).nodes, SecondPass(idMap, objs));
    assert mermaidScript == [Header] + RenderAll(MermaidLines(objs));
    mermaidOutput := Join("\n", mermaidScript);
  }

  // ---------------------------------------------------------------------
  // Numbering

  /** The first pass counts the named objects and files exactly their names. */
  lemma {:induction false} FirstPassNumbering(objs: seq<ObjectElem>)
    ensures FirstPass(objs).counter == |NamedNames(objs)|
    ensures forall k :: k in FirstPass(objs).idMap <==> k in NamedNames(objs)
    decreases |objs|
  {
    if objs != [] {
      FirstPassNumbering(objs[..|objs| - 1]);
    }
  }

  /**
    A name repeated by several objects keeps the id of its last object:
    `obj_n` where that object is the n-th named one.
  */
  lemma {:induction false} FirstPassLastWins(objs: seq<ObjectElem>, i: nat)
    requires i < |objs| && IsNamed(objs[i].name)
    requires forall j :: i < j < |objs| ==> objs[j].name != objs[i].name
    ensures objs[i].name.value in FirstPass(objs).idMap
    ensures FirstPass(objs).idMap[objs[i].name.value] == ObjId(|NamedNames(objs[..i + 1])|)
    decreases |objs|
  {
    var n := |objs| - 1;
    if i == n {
      FirstPassNumbering(objs[..n]);
      assert objs[..i + 1] == objs;
    } else {
      assert objs[..n][..i + 1] == objs[..i + 1];
      FirstPassLastWins(objs[..n], i);
    }
  }

  /** Distinct keys hold distinct ids. */
  ghost predicate Injective(m: map<string, string>)
  {
    forall a, b :: a in m && b in m && a != b ==> m[a] != m[b]
  }

  lemma InjectiveUpdate(m: map<string, string>, k: string, v: string)
    requires Injective(m) && v !in m.Values
    ensures Injective(m[k := v])
  {
  }

  lemma ObjIdInjective(a: nat, b: nat)
    requires ObjId(a) == ObjId(b)
    ensures a == b
  {
    assert Decimal(a) == ObjId(a)[4..];
    assert Decimal(b) == ObjId(b)[4..];
    DecimalInjective(a, b);
  }

  lemma UnresolvedIdInjective(a: nat, b: nat)
    requires UnresolvedId(a) == UnresolvedId(b)
    ensures a == b
  {
    assert Decimal(a) == UnresolvedId(a)[11..];
    assert Decimal(b) == UnresolvedId(b)[11..];
    DecimalInjective(a, b);
  }

  /** The ids `obj_1` to `obj_c`. */
  ghost predicate ObjIdsUpTo(m: map<string, string>, c: nat)
  {
    forall k :: k in m ==> exists n: nat :: 1 <= n <= c && m[k] == ObjId(n)
  }

  /** After the first pass every id is one of `obj_1 … obj_n`, and no two names share one. */
  lemma {:induction false} FirstPassIds(objs: seq<ObjectElem>)
    ensures ObjIdsUpTo(FirstPass(objs).idMap, FirstPass(objs).counter)
    ensures Injective(FirstPass(objs).idMap)
    decreases |objs|
  {
    if objs != [] {
      var r := FirstPass(objs[..|objs| - 1]);
      FirstPassIds(objs[..|objs| - 1]);
      var name := objs[|objs| - 1].name;
      if IsNamed(name) {
        var v := ObjId(r.counter + 1);
        if v in r.idMap.Values {
          var k :| k in r.idMap && r.idMap[k] == v;
          var n: nat :| 1 <= n <= r.counter && r.idMap[k] == ObjId(n);
          ObjIdInjective(n, r.counter + 1);
        }
        InjectiveUpdate(r.idMap, name.value, v);
        var m := r.idMap[name.value := v];
        forall k | k in m ensures exists n: nat :: 1 <= n <= r.counter + 1 && m[k] == ObjId(n) {
          if k == name.value {
            assert m[k] == ObjId(r.counter + 1);
          } else {
            var n: nat :| 1 <= n <= r.counter && r.idMap[k] == ObjId(n);
            assert m[k] == ObjId(n);
          }
        }
      }
    }
  }

  /** The unresolved pass leaves every name the map already had with the id it had. */
  lemma {:induction false} UnresolvedKeepsIds(ids: map<string, string>, texts: seq<Option<string>>)
    ensures forall k :: k in ids ==>
      k in UnresolvedPass(ids, texts).idMap && UnresolvedPass(ids, texts).idMap[k] == ids[k]
    decreases |texts|
  {
    if texts != [] {
      UnresolvedKeepsIds(ids, texts[..|texts| - 1]);
    }
  }

  /** The name a node line shows; an edge shows none. */
  function NameOf(l: Line): (r: string)
  {
    if l.Edge? then "" else l.name
  }

  /** The k-th unresolved node (from 0) is `unresolved_{k+1}` for a name not in the starting map. */
  ghost predicate NumberedNode(ids: map<string, string>, r: Registry, k: int)
    requires 0 <= k < |r.nodes|
  {
    r.nodes[k].UnresolvedNode? && r.nodes[k].id == UnresolvedId(k + 1)
    && r.nodes[k].name != "" && r.nodes[k].name !in ids
    && r.nodes[k].name in r.idMap && r.idMap[r.nodes[k].name] == UnresolvedId(k + 1)
  }

  /**
    The unresolved pass writes one node per new name, numbered from 1 in
    order, and maps that name to the node's id.
  */
  lemma {:induction false} UnresolvedNodesNumbered(ids: map<string, string>, texts: seq<Option<string>>)
    ensures UnresolvedPass(ids, texts).counter == |UnresolvedPass(ids, texts).nodes|
    ensures forall k :: 0 <= k < |UnresolvedPass(ids, texts).nodes| ==> NumberedNode(ids, UnresolvedPass(ids, texts), k)
    decreases |texts|
  {
    if texts != [] {
      var r := UnresolvedPass(ids, texts[..|texts| - 1]);
      UnresolvedNodesNumbered(ids, texts[..|texts| - 1]);
      var text := texts[|texts| - 1];
      if IsNamed(text) && text.value !in r.idMap {
        var r' := UnresolvedPass(ids, texts);
        UnresolvedKeepsIds(ids, texts[..|texts| - 1]);
        forall k | 0 <= k < |r'.nodes| ensures NumberedNode(ids, r', k) {
          if k < |r.nodes| {
            assert NumberedNode(ids, r, k);
            assert r'.nodes[k] == r.nodes[k];
          }
        }
      }
    }
  }

  /** No name gets two unresolved nodes. */
  lemma UnresolvedNamesDistinct(ids: map<string, string>, texts: seq<Option<string>>)
    ensures forall a, b :: 0 <= a < b < |UnresolvedPass(ids, texts).nodes| ==>
      NameOf(UnresolvedPass(ids, texts).nodes[a]) != NameOf(UnresolvedPass(ids, texts).nodes[b])
  {
    var r := UnresolvedPass(ids, texts);
    UnresolvedNodesNumbered(ids, texts);
    forall a, b | 0 <= a < b < |r.nodes| ensures NameOf(r.nodes[a]) != NameOf(r.nodes[b]) {
      assert NumberedNode(ids, r, a) && NumberedNode(ids, r, b);
      if NameOf(r.nodes[a]) == NameOf(r.nodes[b]) {
        UnresolvedIdInjective(a + 1, b + 1);
      }
    }
  }

  /**
    After the unresolved pass a name is in the map exactly when it was
    there before or is the name of one of the new nodes, and every named
    text the pass read is in the map.
  */
  lemma {:induction false} UnresolvedKeys(ids: map<string, string>, texts: seq<Option<string>>, key: string)
    ensures key in UnresolvedPass(ids, texts).idMap <==>
      key in ids || exists k :: 0 <= k < |UnresolvedPass(ids, texts).nodes| && NameOf(UnresolvedPass(ids, texts).nodes[k]) == key
    ensures Some(key) in texts && key != "" ==> key in UnresolvedPass(ids, texts).idMap
    decreases |texts|
  {
    if texts != [] {
      var r := UnresolvedPass(ids, texts[..|texts| - 1]);
      var r' := UnresolvedPass(ids, texts);
      UnresolvedKeys(ids, texts[..|texts| - 1], key);
      var text := texts[|texts| - 1];
      assert texts == texts[..|texts| - 1] + [text];
      if IsNamed(text) && text.value !in r.idMap {
        if key == text.value {
          assert NameOf(r'.nodes[|r.nodes|]) == key;
        } else if exists k :: 0 <= k < |r.nodes| && NameOf(r.nodes[k]) == key {
          var k :| 0 <= k < |r.nodes| && NameOf(r.nodes[k]) == key;
          assert NameOf(r'.nodes[k]) == key;
        }
      }
    }
  }

  /** After both passes every name maps to an id no other name has. */
  lemma IdMapInjective(objs: seq<ObjectElem>)
    ensures Injective(IdMap(objs))
  {
    var m0 := FirstPass(objs).idMap;
    var texts := UnresolvedTexts(objs);
    var r := UnresolvedPass(m0, texts);
    FirstPassIds(objs);
    UnresolvedKeepsIds(m0, texts);
    UnresolvedNodesNumbered(m0, texts);
    forall a, b | a in r.idMap && b in r.idMap && a != b ensures r.idMap[a] != r.idMap[b] {
      UnresolvedKeys(m0, texts, a);
      UnresolvedKeys(m0, texts, b);
      if a in m0 && b in m0 {
      } else if a in m0 {
        var n: nat :| 1 <= n <= FirstPass(objs).counter && m0[a] == ObjId(n);
        var j :| 0 <= j < |r.nodes| && NameOf(r.nodes[j]) == b;
        assert NumberedNode(m0, r, j);
        assert ObjId(n)[0] != UnresolvedId(j + 1)[0];
      } else if b in m0 {
        var n: nat :| 1 <= n <= FirstPass(objs).counter && m0[b] == ObjId(n);
        var j :| 0 <= j < |r.nodes| && NameOf(r.nodes[j]) == a;
        assert NumberedNode(m0, r, j);
        assert ObjId(n)[0] != UnresolvedId(j + 1)[0];
      } else {
        var i :| 0 <= i < |r.nodes| && NameOf(r.nodes[i]) == a;
        var j :| 0 <= j < |r.nodes| && NameOf(r.nodes[j]) == b;
        assert NumberedNode(m0, r, i) && NumberedNode(m0, r, j);
        if r.idMap[a] == r.idMap[b] {
          UnresolvedIdInjective(i + 1, j + 1);
        }
      }
    }
  }

  // ---------------------------------------------------------------------
  // Edges

  /**
    `from` has an edge to `to` exactly when some reference names a key of
    the map whose id is `to`; a reference the map does not know draws no edge.
  */
  lemma {:induction false} EdgeLinesMembers(ids: map<string, string>, from: string, refs: seq<Option<string>>, l: Line)
    ensures l in EdgeLines(ids, from, refs) <==>
      l.Edge? && l.from == from && exists t :: Some(t) in refs && t in ids && ids[t] == l.to
    decreases |refs|
  {
    if refs != [] {
      var init := refs[..|refs| - 1];
      var text := refs[|refs| - 1];
      EdgeLinesMembers(ids, from, init, l);
      assert refs == init + [text];
      if l.Edge? && l.from == from && (exists t :: Some(t) in refs && t in ids && ids[t] == l.to) {
        var t :| Some(t) in refs && t in ids && ids[t] == l.to;
        if Some(t) !in init {
          assert text == Some(t);
        }
      }
    }
  }

  /** A reference of a Uses block that names a key of the map. */
  ghost predicate Refers(ids: map<string, string>, block: UsesElem, to: string)
  {
    exists t :: (Some(t) in block.objects || Some(t) in block.unresolved) && t in ids && ids[t] == to
  }

  /**
    The edges one object draws: from its own id, only when it is drawn at
    all, to the id of each name in its first Uses block that the map knows.
  */
  lemma ObjectLinesEdges(ids: map<string, string>, obj: ObjectElem, l: Line)
    requires l.Edge?
    ensures l in ObjectLines(ids, obj) <==>
      IsNamed(obj.name) && obj.name.value in ids && ids[obj.name.value] != "" && obj.uses != []
      && l.from == ids[obj.name.value] && Refers(ids, obj.uses[0], l.to)
  {
    if IsNamed(obj.name) && obj.name.value in ids && ids[obj.name.value] != "" && obj.uses != [] {
      var id := ids[obj.name.value];
      EdgeLinesMembers(ids, id, obj.uses[0].objects, l);
      EdgeLinesMembers(ids, id, obj.uses[0].unresolved, l);
    }
  }

  /** Every line of the second pass that is an edge starts and ends at ids of the map. */
  lemma {:induction false} SecondPassEdgeEnds(ids: map<string, string>, objs: seq<ObjectElem>, l: Line)
    requires l in SecondPass(ids, objs) && l.Edge?
    ensures l.from in ids.Values && l.to in ids.Values
    decreases |objs|
  {
    var init := objs[..|objs| - 1];
    var obj := objs[|objs| - 1];
    if l in SecondPass(ids, init) {
      SecondPassEdgeEnds(ids, init, l);
    } else {
      assert l in ObjectLines(ids, obj);
      var id := ids[obj.name.value];
      assert id in ids.Values;
      EdgeLinesMembers(ids, id, obj.uses[0].objects, l);
      EdgeLinesMembers(ids, id, obj.uses[0].unresolved, l);
      var t :| t in ids && ids[t] == l.to;
    }
  }

  /** Every edge in the script joins two ids of the final map. */
  lemma MermaidEdgeEnds(objs: seq<ObjectElem>, l: Line)
    requires l in MermaidLines(objs) && l.Edge?
    ensures l.from in IdMap(objs).Values && l.to in IdMap(objs).Values
  {
    var r := UnresolvedPass(FirstPass(objs).idMap, UnresolvedTexts(objs));
    UnresolvedNodesOnly(FirstPass(objs).idMap, UnresolvedTexts(objs));
    assert l !in r.nodes;
    SecondPassEdgeEnds(IdMap(objs), objs, l);
  }

  // ---------------------------------------------------------------------
  // Object nodes

  /** The names of the object nodes among some lines, in order. */
  function ObjectNames(lines: seq<Line>): (r: seq<string>)
  {
    if lines == [] then []
    else
      var l := lines[|lines| - 1];
      ObjectNames(lines[..|lines| - 1]) + (if l.ObjectNode? then [l.name] else [])
  }

  lemma {:induction false} ObjectNamesAppend(a: seq<Line>, b: seq<Line>)
    ensures ObjectNames(a + b) == ObjectNames(a) + ObjectNames(b)
    decreases |b|
  {
    if b == [] {
      assert a + b == a;
    } else {
      assert (a + b)[..|a + b| - 1] == a + b[..|b| - 1];
      ObjectNamesAppend(a, b[..|b| - 1]);
    }
  }

  lemma {:induction false} EdgeLinesNoObjects(ids: map<string, string>, from: string, refs: seq<Option<string>>)
    ensures ObjectNames(EdgeLines(ids, from, refs)) == []
    decreases |refs|
  {
    if refs != [] {
      var init := refs[..|refs| - 1];
      var text := refs[|refs| - 1];
      EdgeLinesNoObjects(ids, from, init);
      ObjectNamesAppend(EdgeLines(ids, from, init),
        if text.Some? && text.value in ids then [Edge(from, ids[text.value])] else []);
    }
  }

  lemma ObjectLinesNames(ids: map<string, string>, obj: ObjectElem)
    requires IsNamed(obj.name) ==> obj.name.value in ids && ids[obj.name.value] != ""
    ensures ObjectNames(ObjectLines(ids, obj)) == if IsNamed(obj.name) then [obj.name.value] else []
  {
    if IsNamed(obj.name) {
      var id := ids[obj.name.value];
      var node := [ObjectNode(id, obj.name.value)];
      if obj.uses != [] {
        var used := EdgeLines(ids, id, obj.uses[0].objects);
        var unresolved := EdgeLines(ids, id, obj.uses[0].unresolved);
        EdgeLinesNoObjects(ids, id, obj.uses[0].objects);
        EdgeLinesNoObjects(ids, id, obj.uses[0].unresolved);
        ObjectNamesAppend(used, unresolved);
        ObjectNamesAppend(node, used + unresolved);
        assert ObjectNames(node) == [obj.name.value];
      } else {
        assert ObjectNames(node) == [obj.name.value];
      }
    }
  }

  /** When every named object has a non-empty id, the second pass draws one node per named object, in order. */
  lemma {:induction false} SecondPassNodeNames(ids: map<string, string>, objs: seq<ObjectElem>)
    requires forall n :: n in NamedNames(objs) ==> n in ids && ids[n] != ""
    ensures ObjectNames(SecondPass(ids, objs)) == NamedNames(objs)
    decreases |objs|
  {
    if objs != [] {
      var init := objs[..|objs| - 1];
      var obj := objs[|objs| - 1];
      assert forall n :: n in NamedNames(init) ==> n in NamedNames(objs);
      SecondPassNodeNames(ids, init);
      ObjectLinesNames(ids, obj);
      ObjectNamesAppend(SecondPass(ids, init), ObjectLines(ids, obj));
    }
  }

  /** Every object node is a named object shown with the id the map gives its name. */
  lemma {:induction false} SecondPassNodeIds(ids: map<string, string>, objs: seq<ObjectElem>, l: Line)
    requires l in SecondPass(ids, objs) && l.ObjectNode?
    ensures l.name in NamedNames(objs)
    ensures l.name in ids && l.id == ids[l.name]
    decreases |objs|
  {
    var init := objs[..|objs| - 1];
    var obj := objs[|objs| - 1];
    if l in SecondPass(ids, init) {
      SecondPassNodeIds(ids, init, l);
    } else if obj.uses != [] {
      var id := ids[obj.name.value];
      EdgeLinesMembers(ids, id, obj.uses[0].objects, l);
      EdgeLinesMembers(ids, id, obj.uses[0].unresolved, l);
    }
  }

  /** The unresolved pass writes unresolved nodes only. */
  lemma {:induction false} UnresolvedNodesOnly(ids: map<string, string>, texts: seq<Option<string>>)
    ensures forall l :: l in UnresolvedPass(ids, texts).nodes ==> l.UnresolvedNode?
    decreases |texts|
  {
    if texts != [] {
      UnresolvedNodesOnly(ids, texts[..|texts| - 1]);
    }
  }

  lemma {:induction false} UnresolvedNodesNoObjects(nodes: seq<Line>)
    requires forall l :: l in nodes ==> l.UnresolvedNode?
    ensures ObjectNames(nodes) == []
    decreases |nodes|
  {
    if nodes != [] {
      assert nodes[|nodes| - 1] in nodes;
      assert forall l :: l in nodes[..|nodes| - 1] ==> l in nodes;
      UnresolvedNodesNoObjects(nodes[..|nodes| - 1]);
    }
  }

  /** The object nodes of the script are the named objects, once per Object element and in document order. */
  lemma MermaidObjectNames(objs: seq<ObjectElem>)
    ensures ObjectNames(MermaidLines(objs)) == NamedNames(objs)
  {
    var m0 := FirstPass(objs).idMap;
    var r := UnresolvedPass(m0, UnresolvedTexts(objs));
    FirstPassNumbering(objs);
    FirstPassIds(objs);
    UnresolvedKeepsIds(m0, UnresolvedTexts(objs));
    forall n | n in NamedNames(objs) ensures n in IdMap(objs) && IdMap(objs)[n] != "" {
      var k: nat :| 1 <= k <= FirstPass(objs).counter && m0[n] == ObjId(k);
      assert ObjId(k)[0] == 'o';
    }
    SecondPassNodeNames(IdMap(objs), objs);
    UnresolvedNodesOnly(m0, UnresolvedTexts(objs));
    UnresolvedNodesNoObjects(r.nodes);
    ObjectNamesAppend(r.nodes, SecondPass(IdMap(objs), objs));
  }

  /**
    Each object node shows the `obj_` id the first pass gave its name, that
    of the last object with the name; an unresolved id never labels an object.
  */
  lemma MermaidObjectIds(objs: seq<ObjectElem>, l: Line)
    requires l in MermaidLines(objs) && l.ObjectNode?
    ensures l.name in FirstPass(objs).idMap && l.id == FirstPass(objs).idMap[l.name]
  {
    var m0 := FirstPass(objs).idMap;
    UnresolvedNodesOnly(m0, UnresolvedTexts(objs));
    assert l !in UnresolvedPass(m0, UnresolvedTexts(objs)).nodes;
    SecondPassNodeIds(IdMap(objs), objs, l);
    FirstPassNumbering(objs);
    UnresolvedKeepsIds(m0, UnresolvedTexts(objs));
  }

  // ---------------------------------------------------------------------
  // Order and layout

  /** The second pass writes no unresolved node. */
  lemma {:induction false} SecondPassNoUnresolved(ids: map<string, string>, objs: seq<ObjectElem>, l: Line)
    requires l in SecondPass(ids, objs)
    ensures !l.UnresolvedNode?
    decreases |objs|
  {
    var init := objs[..|objs| - 1];
    var obj := objs[|objs| - 1];
    if l in SecondPass(ids, init) {
      SecondPassNoUnresolved(ids, init, l);
    } else if obj.uses != [] {
      var id := ids[obj.name.value];
      EdgeLinesMembers(ids, id, obj.uses[0].objects, l);
      EdgeLinesMembers(ids, id, obj.uses[0].unresolved, l);
    }
  }

  /** Every edge of the second pass comes after a node carrying the id the edge starts from. */
  lemma {:induction false} SecondPassEdgeAfterNode(ids: map<string, string>, objs: seq<ObjectElem>, b: nat)
    requires b < |SecondPass(ids, objs)| && SecondPass(ids, objs)[b].Edge?
    ensures exists a :: (0 <= a < b && SecondPass(ids, objs)[a].ObjectNode?
                         && SecondPass(ids, objs)[a].id == SecondPass(ids, objs)[b].from)
    decreases |objs|
  {
    var init := objs[..|objs| - 1];
    var obj := objs[|objs| - 1];
    var prev := SecondPass(ids, init);
    var sp := SecondPass(ids, objs);
    if b < |prev| {
      SecondPassEdgeAfterNode(ids, init, b);
      var a :| 0 <= a < b && prev[a].ObjectNode? && prev[a].id == prev[b].from;
      assert sp[a] == prev[a] && sp[b] == prev[b];
    } else {
      var ol := ObjectLines(ids, obj);
      var id := ids[obj.name.value];
      assert sp[b] == ol[b - |prev|] && sp[|prev|] == ol[0];
      var l := sp[b];
      assert l in ol[1..];
      EdgeLinesMembers(ids, id, obj.uses[0].objects, l);
      EdgeLinesMembers(ids, id, obj.uses[0].unresolved, l);
    }
  }

  /**
    The unresolved nodes open the script, before every object node and
    edge, and each edge follows a node carrying the id the edge starts from.
  */
  lemma MermaidLineOrder(objs: seq<ObjectElem>)
    ensures forall a, b :: 0 <= a < b < |MermaidLines(objs)| && MermaidLines(objs)[b].UnresolvedNode? ==>
      MermaidLines(objs)[a].UnresolvedNode?
    ensures forall b :: 0 <= b < |MermaidLines(objs)| && MermaidLines(objs)[b].Edge? ==>
      exists a :: 0 <= a < b && MermaidLines(objs)[a].ObjectNode? && MermaidLines(objs)[a].id == MermaidLines(objs)[b].from
  {
    var nodes := UnresolvedPass(FirstPass(objs).idMap, UnresolvedTexts(objs)).nodes;
    var sp := SecondPass(IdMap(objs), objs);
    var lines := MermaidLines(objs);
    UnresolvedNodesOnly(FirstPass(objs).idMap, UnresolvedTexts(objs));
    assert forall k :: 0 <= k < |nodes| ==> lines[k] == nodes[k] && nodes[k] in nodes;
    forall a, b | 0 <= a < b < |lines| && lines[b].UnresolvedNode? ensures lines[a].UnresolvedNode? {
      if b >= |nodes| {
        assert lines[b] == sp[b - |nodes|];
        SecondPassNoUnresolved(IdMap(objs), objs, lines[b]);
      } else {
        assert lines[a] == nodes[a];
      }
    }
    forall b | 0 <= b < |lines| && lines[b].Edge?
      ensures exists a :: 0 <= a < b && lines[a].ObjectNode? && lines[a].id == lines[b].from
    {
      assert b >= |nodes|;
      {
        assert lines[b] == sp[b - |nodes|];
        SecondPassEdgeAfterNode(IdMap(objs), objs, b - |nodes|);
        var a :| 0 <= a < b - |nodes| && sp[a].ObjectNode? && sp[a].id == sp[b - |nodes|].from;
        assert lines[a + |nodes|] == sp[a];
      }
    }
  }

  /**
    The output is `graph TD;` followed, when there are lines, by a newline
    and the rendered lines joined by newlines; with no lines it is the
    header alone.
  */
  lemma MermaidScriptLayout(objs: seq<ObjectElem>)
    ensures MermaidLines(objs) == [] ==> MermaidScript(objs) == Header
    ensures MermaidLines(objs) != [] ==>
      MermaidScript(objs) == Header + "\n" + Join("\n", RenderAll(MermaidLines(objs)))
  {
  }
}
