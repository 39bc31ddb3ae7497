/**
 * The reusable edit modal: a static registry from a node-kind tag to the
 * fields it shows, and a draft (`formData`) that is seeded from the node
 * when the modal opens, changed one key at a time, and handed back on save.
 */
module EditModal {
  import opened Json

  datatype FieldType = Text | Textarea | Checkbox

  datatype SchemaField = SchemaField(key: string, caption: string, fieldType: FieldType)

  /** The kind tag for bare scalars, whose draft wraps the scalar under `value`. */
  const Simple := "simple"

  /** `SCHEMAS`: the ordered fields of each node kind. */
  const Schemas: map<string, seq<SchemaField>> := map[
    "simple" := [SchemaField("value", "Değer", Text)],
    "game" := [SchemaField("name", "Oyun Adı", Text), SchemaField("url", "URL", Text),
               SchemaField("icon", "İkon (örn: fab fa-steam)", Text)],
    "tech" := [SchemaField("name", "Teknoloji", Text), SchemaField("icon", "İkon", Text),
               SchemaField("primary", "Ana Teknoloji mi?", Checkbox)],
    "project" := [SchemaField("title", "Başlık", Text), SchemaField("description", "Açıklama", Textarea),
                  SchemaField("url", "URL", Text)],
    "social" := [SchemaField("platform", "Platform", Text), SchemaField("url", "URL", Text),
                 SchemaField("icon", "İkon", Text)],
    "topLink" := [SchemaField("label", "Yazı", Text), SchemaField("url", "URL", Text)]
  ]

  predicate DistinctKeys(fields: seq<SchemaField>) {
    forall i, j :: 0 <= i < j < |fields| ==> fields[i].key != fields[j].key
  }

  /**
   * The registry has exactly six kinds, each with a non-empty list of
   * distinct keys; `simple` has the single key `value`.
   */
  lemma RegistryShape()
    ensures Schemas.Keys == {"simple", "game", "tech", "project", "social", "topLink"}
    ensures forall kind :: kind in Schemas ==> |Schemas[kind]| > 0 && DistinctKeys(Schemas[kind])
    ensures |Schemas[Simple]| == 1 && Schemas[Simple][0].key == "value"
  {
  }

  /** Only `tech.primary` is a checkbox and only `project.description` is a textarea. */
  lemma RegistryInputKinds()
    ensures forall kind, i :: kind in Schemas && 0 <= i < |Schemas[kind]| ==>
      && (Schemas[kind][i].fieldType == Checkbox <==> kind == "tech" && Schemas[kind][i].key == "primary")
      && (Schemas[kind][i].fieldType == Textarea <==> kind == "project" && Schemas[kind][i].key == "description")
  {
    forall kind, i | kind in Schemas && 0 <= i < |Schemas[kind]|
      ensures Schemas[kind][i].fieldType == Checkbox <==> kind == "tech" && Schemas[kind][i].key == "primary"
      ensures Schemas[kind][i].fieldType == Textarea <==> kind == "project" && Schemas[kind][i].key == "description"
    {
      assert kind in Schemas.Keys;
      RegistryShape();
    }
  }

  /**
   * `SCHEMAS[schemaType] || SCHEMAS.simple`: every tag, known or not, gets a
   * non-empty form of distinct keys; an unknown tag gets the `simple` form.
   */
  function FieldsFor(schemaType: string): (r: seq<SchemaField>)
    ensures |r| > 0 && DistinctKeys(r)
    ensures schemaType !in Schemas ==> |r| == 1 && r[0].key == "value"
  {
    RegistryShape();
    if schemaType in Schemas then Schemas[schemaType] else Schemas[Simple]
  }

  /** `{ ...v }`: a record's own keys; an array's or a string's index keys; nothing otherwise. */
  function Spread(v: Value): (r: map<string, Value>)
    ensures v.Obj? ==> r == v.fields
    ensures v.Arr? ==> forall i :: 0 <= i < |v.items| ==> NatToString(i) in r && r[NatToString(i)] == v.items[i]
    ensures v.Arr? ==> r.Keys == set i | 0 <= i < |v.items| :: NatToString(i)
    ensures v.Null? || v.Bool? ==> r == map[]
  {
    NatToStringInjective();
    match v
    case Obj(m) => m
    case Arr(s) => map i | 0 <= i < |s| :: NatToString(i) := s[i]
    case Str(t) => map i | 0 <= i < |t| :: NatToString(i) := Str([t[i]])
    case _ => map[]
  }

  /** The draft seeded on open: `{ value: initialData }` for `simple`, `{ ...initialData }` otherwise. */
  function Seed(schemaType: string, initialData: Value): (r: map<string, Value>)
    ensures schemaType == Simple ==> r.Keys == {"value"}
  {
    if schemaType == Simple then map["value" := initialData] else Spread(initialData)
  }

  /** What save hands to `onSave`: `formData.value` for `simple`, the whole draft otherwise. */
  function Unwrap(schemaType: string, draft: map<string, Value>): (r: Value)
    requires schemaType == Simple ==> "value" in draft
    ensures schemaType == Simple ==> Seed(schemaType, r) == map["value" := draft["value"]]
    ensures schemaType != Simple ==> Seed(schemaType, r) == draft
  {
    if schemaType == Simple then draft["value"] else Obj(draft)
  }

  /**
   * Opening and saving with no edit gives back the node that was opened,
   * a bare scalar for `simple` and a whole record otherwise, keys outside the
   * schema included.
   */
  lemma OpenSaveRoundTrip(schemaType: string, initialData: Value)
    requires schemaType == Simple || initialData.Obj?
    ensures Unwrap(schemaType, Seed(schemaType, initialData)) == initialData
  {
  }

  /**
   * One `handleChange(key, val)` before save: for `simple` only the key
   * `value` reaches the saved scalar; for a record kind the saved record has
   * `val` at `key` and every other draft key unchanged.
   */
  lemma ChangeThenSave(schemaType: string, draft: map<string, Value>, key: string, val: Value)
    requires schemaType == Simple ==> "value" in draft
    ensures schemaType == Simple ==>
      Unwrap(schemaType, draft[key := val]) == if key == "value" then val else Unwrap(schemaType, draft)
    ensures schemaType != Simple ==>
      && Unwrap(schemaType, draft[key := val]).Obj?
      && Unwrap(schemaType, draft[key := val]).fields.Keys == draft.Keys + {key}
      && Unwrap(schemaType, draft[key := val]).fields[key] == val
      && forall k :: k in draft && k != key ==> Unwrap(schemaType, draft[key := val]).fields[k] == draft[k]
  {
  }

  /** The modal component: its props as last rendered, and its draft. */
  class EditModal {
    var isOpen: bool
    var initialData: Value
    var schemaType: string
    var formData: map<string, Value>

    /** A `simple` draft always holds `value` while the modal is open. */
    ghost predicate Valid()
      reads this
    {
      isOpen && schemaType == Simple ==> "value" in formData
    }

    /** First render: the draft starts as `{}` and the effect seeds it if the modal is open. */
    constructor (isOpen: bool, initialData: Value, schemaType: string)
      ensures Valid()
      ensures this.isOpen == isOpen && this.initialData == initialData && this.schemaType == schemaType
      ensures formData == if isOpen then Seed(schemaType, initialData) else map[]
    {
      this.isOpen := isOpen;
      this.initialData := initialData;
      this.schemaType := schemaType;
      formData := map[];
      if isOpen {
        formData := Seed(schemaType, initialData);
      }
    }

    /**
     * A re-render with new props. The effect runs when a dependency
     * changed and re-seeds the draft only if the modal is open; while closed
     * the draft is left alone.
     */
    method Rerender(isOpen': bool, initialData': Value, schemaType': string)
      requires Valid()
      modifies this
      ensures Valid()
      ensures isOpen == isOpen' && initialData == initialData' && schemaType == schemaType'
      ensures formData ==
        if isOpen' && (isOpen' != old(isOpen) || initialData' != old(initialData) || schemaType' != old(schemaType))
        then Seed(schemaType', initialData')
        else old(formData)
    {
      var changed := isOpen' != isOpen || initialData' != initialData || schemaType' != schemaType;
      isOpen, initialData, schemaType := isOpen', initialData', schemaType';
      if changed && isOpen {
        formData := Seed(schemaType, initialData);
      }
    }

    /** The fields rendered while open. */
    function Fields(): (r: seq<SchemaField>)
      reads this
      ensures |r| > 0 && DistinctKeys(r)
    {
      FieldsFor(schemaType)
    }

    /** `handleChange(key, val)`: one draft key changes, the document does not. */
    method HandleChange(key: string, val: Value)
      requires isOpen && Valid()
      modifies this`formData
      ensures Valid()
      ensures formData == old(formData)[key := val]
    {
      formData := formData[key := val];
    }

    /** The save button: the value passed to `onSave`; the draft is not changed. */
    method Submit() returns (saved: Value)
      requires isOpen && Valid()
      ensures saved == Unwrap(schemaType, formData)
      ensures schemaType == Simple ==> saved == formData["value"]
      ensures schemaType != Simple ==> saved == Obj(formData)
    {
      saved := if schemaType == Simple then formData["value"] else Obj(formData);
    }
  }
}
