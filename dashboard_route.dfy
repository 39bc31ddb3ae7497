/**
 * The dashboard route: the older editor page. It keeps the document and a
 * single edit-session record `editModal`; its `updateData` walks existing
 * nodes only, and `openEdit` reads the node at a path to seed the session.
 */
module DashboardRoute {
  import opened Json
  import opened SiteData
  import UseDashboard
  import EditModal

  // ---------------------------------------------------------------------
  // Path update over existing nodes only.
  // ---------------------------------------------------------------------

  /**
   * The final assignment does not grow an array or set a non-index property
   * on it, and the path is not empty. (Both are outside what the views do.)
   */
  predicate WritesInRange(node: Value, path: seq<string>)
    decreases |path|
  {
    && |path| > 0
    && if |path| == 1 then (node.Arr? ==> CanPut(node, path[0]))
       else (Child(node, path[0]).Found? ==> WritesInRange(Child(node, path[0]).value, path[1..]))
  }

  /**
   * The document after `updateData(path, value)`: `current = current[key]`
   * for every segment but the last, then `current[last] = value`. None is the
   * TypeError JavaScript raises when the walk reaches null or undefined, or
   * ends on a string or boolean; the document is then left as it was.
   */
  function UpdatedExisting(node: Value, path: seq<string>, value: Value): (r: Option<Value>)
    requires WritesInRange(node, path)
    ensures r.Some? ==> IsContainer(node) && r.value.Obj? == node.Obj? && r.value.Arr? == node.Arr?
    ensures r.Some? ==> Child(r.value, path[0]).Found?
    decreases |path|
  {
    if |path| == 1 then
      if IsContainer(node) then Some(Put(node, path[0], value)) else None
    else
      match Child(node, path[0])
      case Found(c) =>
        (match UpdatedExisting(c, path[1..], value)
         case Some(c') => Some(Put(node, path[0], c'))
         case None => None)
      case _ => None
  }

  /**
   * This update never creates intermediates: it succeeds exactly when every
   * proper prefix of the path already resolves and the last one resolves to
   * a record or an array.
   */
  lemma {:induction false} UpdatedExistingSucceeds(node: Value, path: seq<string>, value: Value)
    requires WritesInRange(node, path)
    ensures UpdatedExisting(node, path, value).Some? <==>
      (Get(node, path[..|path| - 1]).Found? && IsContainer(Get(node, path[..|path| - 1]).value))
    decreases |path|
  {
    var prefix := path[..|path| - 1];
    if |path| > 1 {
      assert prefix[0] == path[0];
      assert prefix[1..] == path[1..][..|path[1..]| - 1];
      match Child(node, path[0])
      case Found(c) => UpdatedExistingSucceeds(c, path[1..], value);
      case Undefined =>
      case Thrown =>
    }
  }

  /** A successful update touched only a container, so its node is truthy. */
  lemma UpdatedExistingOnContainer(node: Value, path: seq<string>, value: Value)
    requires WritesInRange(node, path) && UpdatedExisting(node, path, value).Some?
    ensures IsContainer(node)
  {
  }

  /**
   * Where the older update succeeds it agrees with the hook's creating
   * update: the two variants differ only on paths with missing or falsy
   * intermediates, where this one raises a TypeError.
   */
  lemma {:induction false} UpdatedExistingAgrees(node: Value, path: seq<string>, value: Value)
    requires WritesInRange(node, path) && UpdatedExisting(node, path, value).Some?
    ensures UseDashboard.Writable(node, path)
    ensures UpdatedExisting(node, path, value) == Some(UseDashboard.Updated(node, path, value))
    decreases |path|
  {
    if |path| > 1 {
      var c := Child(node, path[0]).value;
      UpdatedExistingAgrees(c, path[1..], value);
      UpdatedExistingOnContainer(c, path[1..], value);
      assert UseDashboard.Descend(node, path[0]) == c;
    }
  }

  /** Reading the path just written yields the value written. */
  lemma GetAfterUpdatedExisting(node: Value, path: seq<string>, value: Value)
    requires WritesInRange(node, path) && UpdatedExisting(node, path, value).Some?
    ensures Get(UpdatedExisting(node, path, value).value, path) == Found(value)
  {
    UpdatedExistingAgrees(node, path, value);
    UseDashboard.GetAfterUpdated(node, path, value);
  }

  /** Writing back the value found at a path gives the same document. */
  lemma {:induction false} UpdatedExistingSame(node: Value, path: seq<string>)
    requires |path| > 0 && Get(node, path).Found?
    ensures WritesInRange(node, path)
    ensures UpdatedExisting(node, path, Get(node, path).value) == Some(node)
    decreases |path|
  {
    var c := Child(node, path[0]).value;
    if |path| == 1 {
      PutSame(node, path[0]);
    } else {
      UpdatedExistingSame(c, path[1..]);
      PutSame(node, path[0]);
    }
  }

  /**
   * The whole edit protocol on a `simple` node: open at a path, save with
   * no edit, and the document is unchanged; with the draft's `value` set to
   * v, the path then reads v.
   */
  lemma SimpleEditCommits(doc: Value, path: seq<string>, v: Value)
    requires |path| > 0 && Get(doc, path).Found?
    ensures var draft := EditModal.Seed(EditModal.Simple, Get(doc, path).value);
      && WritesInRange(doc, path)
      && UpdatedExisting(doc, path, EditModal.Unwrap(EditModal.Simple, draft)) == Some(doc)
      && UpdatedExisting(doc, path, EditModal.Unwrap(EditModal.Simple, draft["value" := v])).Some?
      && Get(UpdatedExisting(doc, path, EditModal.Unwrap(EditModal.Simple, draft["value" := v])).value, path) == Found(v)
  {
    UpdatedExistingSame(doc, path);
    var draft := EditModal.Seed(EditModal.Simple, Get(doc, path).value);
    assert EditModal.Unwrap(EditModal.Simple, draft["value" := v]) == v;
    UpdatedExistingSucceeds(doc, path, Get(doc, path).value);
    UpdatedExistingSucceeds(doc, path, v);
    GetAfterUpdatedExisting(doc, path, v);
  }

  /**
   * The stale-path behaviour of the code as written: after removing index
   * j of a collection, a path captured as `[name, String(k)]` with k >= j
   * now reads the element that was at k + 1.
   */
  lemma SessionPathShiftsAfterRemoval(doc: Value, name: string, j: int, k: nat)
    requires HasCollection(doc, name)
    requires 0 <= j <= k && k + 1 < |doc.fields[name].items|
    ensures Get(Removed(doc, name, j), [name, NatToString(k)]) == Found(doc.fields[name].items[k + 1])
  {
    var items := doc.fields[name].items;
    WithoutShifts(items, j);
    IndexOfNatToString(k);
    var after := Removed(doc, name, j);
    assert Child(after, name) == Found(Arr(Without(items, j)));
    assert Child(Arr(Without(items, j)), NatToString(k)) == Found(items[k + 1]);
    assert [name, NatToString(k)][1..] == [NatToString(k)];
    assert Get(Arr(Without(items, j)), [NatToString(k)]) == Found(items[k + 1]);
  }

  /**
   * The body of `updateData` on a present document: `current = current[key]`
   * for every segment but the last, then `current[last] = value`, on a copy.
   * None is the TypeError; the walk collects the copied ancestors, and
   * assigning into the copy is rebuilding them bottom-up.
   */
  method UpdateExistingCopy(root: Value, path: seq<string>, value: Value) returns (r: Option<Value>)
    requires WritesInRange(root, path)
    ensures r == UpdatedExisting(root, path, value)
  {
    var chain := [root];
    var i := 0;
    while i < |path| - 1
      invariant 0 <= i <= |path| - 1
      invariant |chain| == i + 1 && chain[0] == root
      invariant forall k :: 0 <= k < i ==> Child(chain[k], path[k]) == Found(chain[k + 1])
      invariant WritesInRange(chain[i], path[i..])
      invariant UpdatedExisting(root, path, value).None? <==> UpdatedExisting(chain[i], path[i..], value).None?
    {
      assert path[i..][1..] == path[i + 1..];
      var c := Child(chain[i], path[i]);
      if !c.Found? {
        // reading or assigning below null or undefined raises a TypeError
        return None;
      }
      chain := chain + [c.value];
      i := i + 1;
    }
    assert path[i..] == [path[i]];
    if !IsContainer(chain[i]) {
      // assigning a property of null, undefined or a primitive raises a TypeError
      return None;
    }
    var acc := Put(chain[i], path[i], value);
    while i > 0
      invariant 0 <= i < |path|
      invariant WritesInRange(chain[i], path[i..]) && UpdatedExisting(chain[i], path[i..], value) == Some(acc)
    {
      i := i - 1;
      assert path[i..][1..] == path[i + 1..];
      acc := Put(chain[i], path[i], acc);
    }
    r := Some(acc);
  }

  /** The `openEdit` read: `val = val[p]` for each segment in turn. */
  method ReadPath(root: Value, path: seq<string>) returns (r: Read)
    ensures r == Get(root, path)
  {
    r := Found(root);
    for i := 0 to |path|
      invariant r == Get(root, path[..i])
    {
      GetSnoc(root, path[..i], path[i]);
      assert path[..i + 1] == path[..i] + [path[i]];
      r := Step(r, path[i]);
    }
    assert path[..|path|] == path;
  }

  // ---------------------------------------------------------------------
  // The page's state: the document and the one edit session.
  // ---------------------------------------------------------------------

  /** `editModal`: whether the modal is open, what it edits, and the node read when it opened. */
  datatype Modal = Modal(open: bool, path: seq<string>, data: Value, schemaType: string, title: string)

  const InitialModal := Modal(false, [], Null, "simple", "")

  class Dashboard {
    var siteData: Option<Value>
    var editModal: Modal

    /** The page once the initial load has delivered `loaded`. */
    constructor (loaded: Option<Value>)
      ensures siteData == loaded && editModal == InitialModal
    {
      siteData := loaded;
      editModal := InitialModal;
    }

    /**
     * `updateData(path, value)`. `ok` is false when the JavaScript would
     * raise a TypeError, which leaves the state as it was.
     */
    method UpdateData(path: seq<string>, value: Value) returns (ok: bool)
      requires siteData.Some? ==> WritesInRange(siteData.value, path)
      modifies this`siteData
      ensures old(siteData).None? ==> ok && siteData == old(siteData)
      ensures old(siteData).Some? ==> ok == UpdatedExisting(old(siteData).value, path, value).Some?
      ensures old(siteData).Some? && ok ==> siteData == UpdatedExisting(old(siteData).value, path, value)
      ensures !ok ==> siteData == old(siteData)
    {
      if siteData.None? {
        return true;
      }
      var updated := UpdateExistingCopy(siteData.value, path, value);
      if updated.None? {
        return false;
      }
      siteData := updated;
      ok := true;
    }

    /**
     * `openEdit(path, schemaType, title)`: read the node at the path and
     * open the one session on it, replacing any previous session. `ok` is
     * false when the read does not find a node.
     */
    method OpenEdit(path: seq<string>, schemaType: string, title: string) returns (ok: bool)
      modifies this`editModal
      ensures siteData.None? ==> ok && editModal == old(editModal)
      ensures siteData.Some? ==> ok == Get(siteData.value, path).Found?
      ensures siteData.Some? && ok ==> editModal == Modal(true, path, Get(siteData.value, path).value, schemaType, title)
      ensures !ok ==> editModal == old(editModal)
    {
      if siteData.None? {
        return true;
      }
      var val := ReadPath(siteData.value, path);
      if !val.Found? {
        return false;
      }
      editModal := Modal(true, path, val.value, schemaType, title);
      ok := true;
    }

    /**
     * `handleModalSave(newData)`: write the saved value at the session's
     * path and close the session, keeping its path, kind and title.
     */
    method HandleModalSave(newData: Value) returns (ok: bool)
      requires siteData.Some? ==> WritesInRange(siteData.value, editModal.path)
      modifies this
      ensures old(siteData).None? ==> ok && siteData == old(siteData)
      ensures old(siteData).Some? ==> ok == UpdatedExisting(old(siteData).value, old(editModal).path, newData).Some?
      ensures old(siteData).Some? && ok ==> siteData == UpdatedExisting(old(siteData).value, old(editModal).path, newData)
      ensures !ok ==> siteData == old(siteData) && editModal == old(editModal)
      ensures ok ==> editModal == old(editModal).(open := false)
    {
      ok := UpdateData(editModal.path, newData);
      if ok {
        editModal := editModal.(open := false);
      }
    }

    /** The modal's close and cancel buttons: the session closes, the document is untouched. */
    method Close()
      modifies this`editModal
      ensures editModal == old(editModal).(open := false)
    {
      editModal := editModal.(open := false);
    }

    /** `addItem(name, item)`; the edit session is not touched. */
    method AddItem(name: string, item: Value)
      requires siteData.Some? ==> HasCollection(siteData.value, name)
      modifies this`siteData
      ensures siteData == if old(siteData).None? then None else Some(Added(old(siteData).value, name, item))
      ensures editModal == old(editModal)
    {
      if siteData.None? {
        return;
      }
      siteData := Some(Added(siteData.value, name, item));
    }

    /** `removeItem(name, index)`; the edit session, and its path, are not touched. */
    method RemoveItem(name: string, index: int)
      requires siteData.Some? ==> HasCollection(siteData.value, name)
      modifies this`siteData
      ensures siteData == if old(siteData).None? then None else Some(Removed(old(siteData).value, name, index))
      ensures editModal == old(editModal)
    {
      if siteData.None? {
        return;
      }
      siteData := Some(Removed(siteData.value, name, index));
    }
  }

  /** Editing the e-mail address through the modal, then cancelling a second edit. */
  method EmailEditScenario()
  {
    var doc := Obj(map["email" := Str("a@b.com"), "games" := Arr([])]);
    var page := new Dashboard(Some(doc));
    var isOpen := page.OpenEdit(["email"], EditModal.Simple, "Email");
    assert isOpen && page.editModal.data == Str("a@b.com");

    var modal := new EditModal.EditModal(true, page.editModal.data, page.editModal.schemaType);
    assert modal.formData == map["value" := Str("a@b.com")];
    modal.HandleChange("value", Str("c@d.com"));
    var saved := modal.Submit();
    assert saved == Str("c@d.com");

    assert WritesInRange(doc, ["email"]);
    var ok := page.HandleModalSave(saved);
    assert ok && !page.editModal.open;
    assert Get(page.siteData.value, ["email"]) == Found(Str("c@d.com"));

    var before := page.siteData;
    modal.Rerender(false, page.editModal.data, page.editModal.schemaType);
    isOpen := page.OpenEdit(["email"], EditModal.Simple, "Email");
    modal.Rerender(true, page.editModal.data, page.editModal.schemaType);
    modal.HandleChange("value", Str("x@y.com"));
    page.Close();
    assert page.siteData == before && !page.editModal.open;
  }
}
