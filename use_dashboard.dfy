/**
 * The dashboard hook: the document being edited, the unsaved-changes flag,
 * and the mutations the form and preview views call. Its `updateData`
 * creates an empty record for a missing or falsy intermediate node.
 */
module UseDashboard {
  import opened Json
  import opened SiteData

  // ---------------------------------------------------------------------
  // Path update that creates missing intermediates.
  // ---------------------------------------------------------------------

  /**
   * One step of the walk: `if (!current[key]) current[key] = {}` followed
   * by `current = current[key]`. The node reached is the existing child when
   * that is truthy, and a fresh empty record otherwise.
   */
  function Descend(node: Value, key: string): (r: Value)
    ensures Truthy(r)
    ensures r == Obj(map[]) || Child(node, key) == Found(r)
    ensures Child(node, key).Found? && Truthy(Child(node, key).value) ==> r == Child(node, key).value
  {
    var c := Child(node, key);
    if c.Found? && Truthy(c.value) then c.value else Obj(map[])
  }

  /**
   * Every assignment the walk performs lands on a record, or on an element
   * that already exists in an array. Paths that would write a property of a
   * string or boolean, grow an array sparsely, or use the empty path are
   * outside what the editor's views produce.
   */
  predicate Writable(node: Value, path: seq<string>)
    decreases |path|
  {
    && |path| > 0
    && CanPut(node, path[0])
    && (|path| > 1 ==> Writable(Descend(node, path[0]), path[1..]))
  }

  /** The document after `updateData(path, value)`, for the node at the top of the walk. */
  function Updated(node: Value, path: seq<string>, value: Value): (r: Value)
    requires Writable(node, path)
    ensures r.Obj? == node.Obj? && r.Arr? == node.Arr?
    ensures Child(r, path[0]).Found?
    decreases |path|
  {
    if |path| == 1 then Put(node, path[0], value)
    else Put(node, path[0], Updated(Descend(node, path[0]), path[1..], value))
  }

  /** Reading the path just written yields the value written. */
  lemma {:induction false} GetAfterUpdated(node: Value, path: seq<string>, value: Value)
    requires Writable(node, path)
    ensures Get(Updated(node, path, value), path) == Found(value)
    decreases |path|
  {
    if |path| > 1 {
      GetAfterUpdated(Descend(node, path[0]), path[1..], value);
    }
  }

  /** Two paths that part ways at some segment (neither is a prefix of the other). */
  predicate Diverges(p: seq<string>, q: seq<string>)
    decreases |p|
  {
    |p| > 0 && |q| > 0 && (p[0] != q[0] || Diverges(p[1..], q[1..]))
  }

  /** A found value at the end of a path longer than one sits inside a container. */
  lemma FoundInsideContainer(node: Value, path: seq<string>)
    requires |path| > 0 && Get(node, path).Found?
    ensures Child(node, path[0]).Found?
  {
  }

  /**
   * Frame: every location that existed before the update and is not on the
   * root-to-target chain, nor below the target, keeps its value.
   */
  lemma {:induction false} UpdatedFrame(node: Value, path: seq<string>, value: Value, q: seq<string>)
    requires Writable(node, path)
    requires Get(node, q).Found? && Diverges(path, q)
    ensures Get(Updated(node, path, value), q) == Get(node, q)
    decreases |path|
  {
    var r := Updated(node, path, value);
    if path[0] != q[0] {
      PutFrame(node, path[0], if |path| == 1 then value else Updated(Descend(node, path[0]), path[1..], value), q[0]);
    } else {
      var c := Child(node, q[0]).value;
      assert Get(c, q[1..]).Found?;
      FoundInsideContainer(c, q[1..]);
      assert Descend(node, path[0]) == c;
      UpdatedFrame(c, path[1..], value, q[1..]);
    }
  }

  /**
   * An absent or falsy `themeSettings` does not stop a write to
   * `themeSettings.primary`: the record is created on the way down, and the
   * path that reported absence before the write yields the value after it.
   */
  lemma ThemeSettingsCreated(doc: Value, value: Value)
    requires doc.Obj? && ("themeSettings" !in doc.fields || !Truthy(doc.fields["themeSettings"]))
    ensures !Get(doc, ["themeSettings", "primary"]).Found?
    ensures Writable(doc, ["themeSettings", "primary"])
    ensures Get(Updated(doc, ["themeSettings", "primary"], value), ["themeSettings", "primary"]) == Found(value)
  {
    GetAfterUpdated(doc, ["themeSettings", "primary"], value);
  }

  /**
   * The paths the form view writes are within the update's precondition on
   * a well-shaped document: a scalar `[k]`, a theme colour
   * `[themeSettings, colour]` whether or not the theme record exists yet,
   * and a key of an existing element `[c, String(i), key]` of a collection
   * of records.
   */
  lemma {:induction false} FormPathsWritable(doc: Value, scalar: string, colour: string, c: string, i: nat, key: string)
    requires IsSiteData(doc) && scalar in ScalarFields && c in CollectionFields
    ensures Writable(doc, [scalar])
    ensures Writable(doc, ["themeSettings", colour])
    ensures i < |doc.fields[c].items| && doc.fields[c].items[i].Obj? ==> Writable(doc, [c, NatToString(i), key])
  {
    var theme := ["themeSettings", colour];
    assert theme[1..] == [colour];
    assert Descend(doc, "themeSettings").Obj?;
    if i < |doc.fields[c].items| && doc.fields[c].items[i].Obj? {
      IndexOfNatToString(i);
      var p := [c, NatToString(i), key];
      assert p[1..] == [NatToString(i), key] && p[1..][1..] == [key];
      assert Descend(doc, c) == doc.fields[c];
      assert Descend(doc.fields[c], NatToString(i)) == doc.fields[c].items[i];
    }
  }

  // ---------------------------------------------------------------------
  // applyTheme: a compound write of both theme colours.
  // ---------------------------------------------------------------------

  /** `themeSettings` is absent, falsy, or a record, so both colours can be assigned on it. */
  predicate ThemeWritable(doc: Value) {
    doc.Obj? &&
    ("themeSettings" in doc.fields && Truthy(doc.fields["themeSettings"]) ==> doc.fields["themeSettings"].Obj?)
  }

  /** The theme colours are written as two path updates, primary first. */
  function ThemeApplied(doc: Value, primary: string, accent: string): (r: Value)
    requires ThemeWritable(doc)
    ensures r.Obj? && "themeSettings" in r.fields
  {
    assert Writable(doc, ["themeSettings", "primary"]);
    var withPrimary := Updated(doc, ["themeSettings", "primary"], Str(primary));
    assert Writable(withPrimary, ["themeSettings", "accent"]);
    Updated(withPrimary, ["themeSettings", "accent"], Str(accent))
  }

  /** The theme record the walk starts from: the existing one, or a fresh one. */
  function ThemeBase(doc: Value): map<string, Value>
    requires ThemeWritable(doc)
  {
    if "themeSettings" in doc.fields && Truthy(doc.fields["themeSettings"])
    then doc.fields["themeSettings"].fields
    else map[]
  }

  /**
   * applyTheme(p, a) sets `themeSettings.primary` to p and
   * `themeSettings.accent` to a, keeps the theme record's other keys, creates
   * the record when absent, and changes no other top-level field.
   */
  lemma ThemeAppliedFields(doc: Value, primary: string, accent: string)
    requires ThemeWritable(doc)
    ensures var r := ThemeApplied(doc, primary, accent);
      && r.Obj?
      && r.fields.Keys == doc.fields.Keys + {"themeSettings"}
      && r.fields["themeSettings"] == Obj(ThemeBase(doc)["primary" := Str(primary)]["accent" := Str(accent)])
      && forall k :: k in doc.fields && k != "themeSettings" ==> r.fields[k] == doc.fields[k]
  {
    var base := Obj(ThemeBase(doc));
    assert Descend(doc, "themeSettings") == base;
    var withPrimary := Updated(doc, ["themeSettings", "primary"], Str(primary));
    assert withPrimary == Put(doc, "themeSettings", Put(base, "primary", Str(primary)));
    assert Descend(withPrimary, "themeSettings") == Put(base, "primary", Str(primary));
  }

  /** A well-shaped document stays well shaped, and gets two string colours. */
  lemma ThemeAppliedKeepsShape(doc: Value, primary: string, accent: string)
    requires IsSiteData(doc)
    ensures ThemeWritable(doc)
    ensures IsSiteData(ThemeApplied(doc, primary, accent))
    ensures Get(ThemeApplied(doc, primary, accent), ["themeSettings", "primary"]) == Found(Str(primary))
    ensures Get(ThemeApplied(doc, primary, accent), ["themeSettings", "accent"]) == Found(Str(accent))
  {
    ThemeAppliedFields(doc, primary, accent);
  }

  // ---------------------------------------------------------------------
  // The unsaved-changes flag.
  // ---------------------------------------------------------------------

  /** The abstract result of the POST to the site-data endpoint. */
  datatype SaveOutcome = Saved | Unauthorized | Failed

  /** What happens to the document: a mutation, or a save attempt. */
  datatype Event = Mutation | Save(outcome: SaveOutcome)

  /**
   * The flag after one event: every mutation of a present document raises
   * it, a successful save of a present document clears it, and nothing else
   * touches it.
   */
  function NextUnsaved(flag: bool, hasDoc: bool, e: Event): (r: bool)
    ensures r <==> (hasDoc && e == Mutation) || (flag && !(hasDoc && e == Save(Saved)))
  {
    if !hasDoc then flag
    else
      match e
      case Mutation => true
      case Save(o) => if o == Saved then false else flag
  }

  /** The flag after a sequence of events (mutations never make a document absent or present). */
  function UnsavedAfter(flag: bool, hasDoc: bool, es: seq<Event>): bool
    decreases |es|
  {
    if es == [] then flag else NextUnsaved(UnsavedAfter(flag, hasDoc, es[..|es| - 1]), hasDoc, es[|es| - 1])
  }

  /** No successful save among the events after position i. */
  predicate NoSaveAfter(es: seq<Event>, i: int) {
    forall j :: 0 <= j < |es| && i < j ==> es[j] != Save(Saved)
  }

  /**
   * The flag is set exactly when some mutation has not been followed by a
   * successful save, or it was set at the start and no save succeeded since;
   * without a document it never moves.
   */
  lemma {:induction false} UnsavedAfterTrace(flag: bool, hasDoc: bool, es: seq<Event>)
    ensures UnsavedAfter(flag, hasDoc, es) <==>
      if !hasDoc then flag
      else (exists i :: 0 <= i < |es| && es[i] == Mutation && NoSaveAfter(es, i)) || (flag && NoSaveAfter(es, -1))
    decreases |es|
  {
    if es != [] {
      var init := es[..|es| - 1];
      var last := es[|es| - 1];
      UnsavedAfterTrace(flag, hasDoc, init);
      if hasDoc {
        if last == Mutation {
          assert NoSaveAfter(es, |es| - 1);
        } else if last == Save(Saved) {
          assert !NoSaveAfter(es, -1);
          forall i | 0 <= i < |es| ensures !NoSaveAfter(es, i) || i == |es| - 1 {
            if i < |es| - 1 { assert es[|es| - 1] == Save(Saved); }
          }
        } else {
          forall i | -1 <= i < |init| ensures NoSaveAfter(es, i) <==> NoSaveAfter(init, i) {
            if NoSaveAfter(init, i) {
              forall j | i < j < |es| ensures es[j] != Save(Saved) {
                if j < |init| { assert es[j] == init[j]; }
              }
            }
            if NoSaveAfter(es, i) {
              forall j | i < j < |init| ensures init[j] != Save(Saved) { assert es[j] == init[j]; }
            }
          }
          if exists i :: 0 <= i < |es| && es[i] == Mutation && NoSaveAfter(es, i) {
            var i :| 0 <= i < |es| && es[i] == Mutation && NoSaveAfter(es, i);
            assert i < |init| && init[i] == Mutation;
          }
          if exists i :: 0 <= i < |init| && init[i] == Mutation && NoSaveAfter(init, i) {
            var i :| 0 <= i < |init| && init[i] == Mutation && NoSaveAfter(init, i);
            assert es[i] == Mutation;
          }
        }
      }
    }
  }

  /**
   * The body of `updateData` on a present document: walk a copy down the
   * path, creating empty records for missing or falsy intermediates, and
   * assign the value at the last segment. The walk collects the copied
   * ancestors; assigning into the copy is rebuilding them bottom-up.
   */
  method UpdateCopy(root: Value, path: seq<string>, value: Value) returns (r: Value)
    requires Writable(root, path)
    ensures r == Updated(root, path, value)
  {
    var chain := [root];
    var i := 0;
    while i < |path| - 1
      invariant 0 <= i <= |path| - 1
      invariant |chain| == i + 1 && chain[0] == root
      invariant forall k :: 0 <= k < i ==> CanPut(chain[k], path[k]) && chain[k + 1] == Descend(chain[k], path[k])
      invariant Writable(chain[i], path[i..])
    {
      var child := Child(chain[i], path[i]);
      var next := if child.Found? && Truthy(child.value) then child.value else Obj(map[]);
      assert path[i..][1..] == path[i + 1..];
      chain := chain + [next];
      i := i + 1;
    }
    assert path[i..] == [path[i]];
    r := Put(chain[i], path[i], value);
    while i > 0
      invariant 0 <= i < |path|
      invariant Writable(chain[i], path[i..]) && r == Updated(chain[i], path[i..], value)
    {
      i := i - 1;
      assert path[i..][1..] == path[i + 1..];
      r := Put(chain[i], path[i], r);
    }
  }

  // ---------------------------------------------------------------------
  // The hook's state.
  // ---------------------------------------------------------------------

  class Dashboard {
    /** The document, or null before it is loaded or when there is none. */
    var siteData: Option<Value>
    var hasUnsavedChanges: bool

    /** The state once the initial load has delivered `loaded` (null when there is no document). */
    constructor (loaded: Option<Value>)
      ensures siteData == loaded && !hasUnsavedChanges
    {
      siteData := loaded;
      hasUnsavedChanges := false;
    }

    /** `updateData(path, value)`: the copy with the value assigned; no document, no change. */
    method UpdateData(path: seq<string>, value: Value)
      requires siteData.Some? ==> Writable(siteData.value, path)
      modifies this
      ensures siteData == if old(siteData).None? then None else Some(Updated(old(siteData).value, path, value))
      ensures hasUnsavedChanges == NextUnsaved(old(hasUnsavedChanges), old(siteData).Some?, Mutation)
    {
      if siteData.None? {
        return;
      }
      var updated := UpdateCopy(siteData.value, path, value);
      siteData := Some(updated);
      hasUnsavedChanges := true;
    }

    /** `applyTheme(primary, accent)`: assign both colours on a copy, creating `themeSettings` if needed. */
    method ApplyTheme(primary: string, accent: string)
      requires siteData.Some? ==> ThemeWritable(siteData.value)
      modifies this
      ensures siteData == if old(siteData).None? then None else Some(ThemeApplied(old(siteData).value, primary, accent))
      ensures hasUnsavedChanges == NextUnsaved(old(hasUnsavedChanges), old(siteData).Some?, Mutation)
    {
      if siteData.None? {
        return;
      }
      var data := siteData.value;
      var theme := if "themeSettings" in data.fields && Truthy(data.fields["themeSettings"])
                   then data.fields["themeSettings"] else Obj(map[]);
      theme := Put(theme, "primary", Str(primary));
      theme := Put(theme, "accent", Str(accent));
      ThemeAppliedFields(data, primary, accent);
      assert theme == Obj(ThemeBase(data)["primary" := Str(primary)]["accent" := Str(accent)]);
      assert Put(data, "themeSettings", theme).fields == ThemeApplied(data, primary, accent).fields;
      siteData := Some(Put(data, "themeSettings", theme));
      hasUnsavedChanges := true;
    }

    /** `addItem(name, item)`: append to a top-level collection. */
    method AddItem(name: string, item: Value)
      requires siteData.Some? ==> HasCollection(siteData.value, name)
      modifies this
      ensures siteData == if old(siteData).None? then None else Some(Added(old(siteData).value, name, item))
      ensures hasUnsavedChanges == NextUnsaved(old(hasUnsavedChanges), old(siteData).Some?, Mutation)
    {
      if siteData.None? {
        return;
      }
      hasUnsavedChanges := true;
      siteData := Some(Added(siteData.value, name, item));
    }

    /** `removeItem(name, index)`: filter one index out of a top-level collection. */
    method RemoveItem(name: string, index: int)
      requires siteData.Some? ==> HasCollection(siteData.value, name)
      modifies this
      ensures siteData == if old(siteData).None? then None else Some(Removed(old(siteData).value, name, index))
      ensures hasUnsavedChanges == NextUnsaved(old(hasUnsavedChanges), old(siteData).Some?, Mutation)
    {
      if siteData.None? {
        return;
      }
      hasUnsavedChanges := true;
      siteData := Some(Removed(siteData.value, name, index));
    }

    /**
     * `saveToServer()` once the POST has produced `outcome`. Without a
     * document nothing is sent; a 401 or a failure keeps the local edits
     * marked unsaved; only success clears the flag.
     */
    method SaveToServer(outcome: SaveOutcome)
      modifies this
      ensures siteData == old(siteData)
      ensures hasUnsavedChanges == NextUnsaved(old(hasUnsavedChanges), old(siteData).Some?, Save(outcome))
    {
      if siteData.None? {
        return;
      }
      if outcome == Unauthorized {
        return;
      }
      if outcome == Saved {
        hasUnsavedChanges := false;
      }
    }
  }
}
