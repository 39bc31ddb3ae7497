/**
 * The site-profile document (`SiteData`) and the two collection operations
 * both editors share: appending an item to a top-level collection and
 * filtering one index out of it.
 */
module SiteData {
  import opened Json

  /** The five string scalars of the document. */
  const ScalarFields: set<string> := {"title", "subtitle", "email", "profileImage", "copyright"}

  /** The five ordered collections of the document. */
  const CollectionFields: set<string> := {"topLinks", "socialLinks", "technologies", "games", "projects"}

  /**
   * The shape of a loaded document: a record holding the scalars as strings
   * and the collections as arrays; `themeSettings`, when present, is a record.
   */
  predicate IsSiteData(v: Value) {
    && v.Obj?
    && (forall k :: k in ScalarFields ==> k in v.fields && v.fields[k].Str?)
    && (forall k :: k in CollectionFields ==> k in v.fields && v.fields[k].Arr?)
    && ("themeSettings" in v.fields ==> v.fields["themeSettings"].Obj?)
  }

  /** `doc[name]` is an array, so the spread and the filter apply to it. */
  predicate HasCollection(doc: Value, name: string) {
    doc.Obj? && name in doc.fields && doc.fields[name].Arr?
  }

  /** `{ ...doc, [name]: [...doc[name], item] }` */
  function Added(doc: Value, name: string, item: Value): (r: Value)
    requires HasCollection(doc, name)
    ensures HasCollection(r, name)
    ensures r.fields[name].items == doc.fields[name].items + [item]
    ensures r.fields.Keys == doc.fields.Keys
    ensures forall k :: k in doc.fields && k != name ==> r.fields[k] == doc.fields[k]
  {
    Obj(doc.fields[name := Arr(doc.fields[name].items + [item])])
  }

  /**
   * `s.filter((_, i) => i !== index)`, where `offset` is the position that
   * s[0] has in the array being filtered.
   */
  function Keep(s: seq<Value>, index: int, offset: int): seq<Value>
    decreases |s|
  {
    if s == [] then []
    else (if offset != index then [s[0]] else []) + Keep(s[1..], index, offset + 1)
  }

  /** The array without the element at `index`; any other index keeps all. */
  function Without(s: seq<Value>, index: int): (r: seq<Value>)
    ensures 0 <= index < |s| ==> r == s[..index] + s[index + 1..]
    ensures !(0 <= index < |s|) ==> r == s
  {
    if 0 <= index < |s| then KeepIsSplice(s, index, 0); Keep(s, index, 0)
    else KeepOutside(s, index, 0); Keep(s, index, 0)
  }

  /** An index outside the positions of s filters nothing out. */
  lemma {:induction false} KeepOutside(s: seq<Value>, index: int, offset: int)
    requires !(offset <= index < offset + |s|)
    ensures Keep(s, index, offset) == s
    decreases |s|
  {
    if s != [] {
      KeepOutside(s[1..], index, offset + 1);
      assert s == [s[0]] + s[1..];
    }
  }

  lemma {:induction false} KeepIsSplice(s: seq<Value>, index: int, offset: int)
    requires offset <= index < offset + |s|
    ensures Keep(s, index, offset) == s[..index - offset] + s[index - offset + 1..]
    decreases |s|
  {
    if offset == index {
      KeepOutside(s[1..], index, offset + 1);
      assert Keep(s, index, offset) == s[1..];
      assert s[..0] + s[1..] == s[1..];
    } else {
      var m := index - offset;
      var t := s[1..];
      KeepIsSplice(t, index, offset + 1);
      assert Keep(s, index, offset) == [s[0]] + (t[..m - 1] + t[m..]);
      assert s[..m] == [s[0]] + t[..m - 1];
      assert s[m + 1..] == t[m..];
      assert [s[0]] + (t[..m - 1] + t[m..]) == ([s[0]] + t[..m - 1]) + t[m..];
    }
  }

  /**
   * The index-shift law of removal: the element at `index` is gone and every
   * later element moves down by one; an index outside the array removes
   * nothing and reports no error.
   */
  lemma WithoutShifts(s: seq<Value>, index: int)
    ensures 0 <= index < |s| ==> |Without(s, index)| == |s| - 1
    ensures 0 <= index < |s| ==>
      forall j :: 0 <= j < |s| - 1 ==> Without(s, index)[j] == if j < index then s[j] else s[j + 1]
    ensures !(0 <= index < |s|) ==> Without(s, index) == s
  {
    if 0 <= index < |s| {
      KeepIsSplice(s, index, 0);
    } else {
      KeepOutside(s, index, 0);
    }
  }

  /** `{ ...doc, [name]: doc[name].filter((_, i) => i !== index) }` */
  function Removed(doc: Value, name: string, index: int): (r: Value)
    requires HasCollection(doc, name)
    ensures HasCollection(r, name)
    ensures r.fields[name].items == Without(doc.fields[name].items, index)
    ensures r.fields.Keys == doc.fields.Keys
    ensures forall k :: k in doc.fields && k != name ==> r.fields[k] == doc.fields[k]
  {
    Obj(doc.fields[name := Arr(Without(doc.fields[name].items, index))])
  }

  /** Removing the item just appended restores the document. */
  lemma AddedThenRemoved(doc: Value, name: string, item: Value)
    requires HasCollection(doc, name)
    ensures Removed(Added(doc, name, item), name, |doc.fields[name].items|) == doc
  {
    var s := doc.fields[name].items;
    KeepIsSplice(s + [item], |s|, 0);
    assert (s + [item])[..|s|] == s;
    assert Without(s + [item], |s|) == s;
    var added := Added(doc, name, item);
    assert added.fields[name := Arr(s)] == doc.fields[name := Arr(s)];
    assert doc.fields[name := Arr(s)] == doc.fields;
  }

  /** Appending and removing keep the document's shape. */
  lemma CollectionOpsKeepShape(doc: Value, name: string, item: Value, index: int)
    requires IsSiteData(doc) && name in CollectionFields
    ensures IsSiteData(Added(doc, name, item))
    ensures IsSiteData(Removed(doc, name, index))
  {
  }
}
