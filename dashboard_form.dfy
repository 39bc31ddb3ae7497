/**
 * The paths the form view hands to the hook's `updateData` for one row of
 * the `games` collection. Each row shows three inputs; the one showing the
 * icon writes to the `url` key instead of `icon`.
 */
module DashboardForm {
  import opened Json
  import opened SiteData
  import opened UseDashboard

  /** The three inputs of a game row. */
  datatype GameInput = NameInput | UrlInput | IconInput

  /** The record key whose value an input displays. */
  function Shown(input: GameInput): string {
    match input
    case NameInput => "name"
    case UrlInput => "url"
    case IconInput => "icon"
  }

  /** The path each input's change handler writes, as the view has it. */
  function GamePathAsWritten(i: nat, input: GameInput): seq<string> {
    ["games", NatToString(i), if input == IconInput then "url" else Shown(input)]
  }

  /** The path each input evidently should write: the key it displays. */
  function GamePath(i: nat, input: GameInput): seq<string> {
    ["games", NatToString(i), Shown(input)]
  }

  /** The game at index i is a record holding the key each input displays. */
  predicate HasGameRow(doc: Value, i: nat) {
    && IsSiteData(doc)
    && i < |doc.fields["games"].items|
    && doc.fields["games"].items[i].Obj?
    && "name" in doc.fields["games"].items[i].fields
    && "url" in doc.fields["games"].items[i].fields
    && "icon" in doc.fields["games"].items[i].fields
  }

  /** `doc.games[i][key]`, read by path. */
  lemma GameFieldRead(doc: Value, i: nat, key: string)
    requires IsSiteData(doc) && i < |doc.fields["games"].items| && doc.fields["games"].items[i].Obj?
    ensures Get(doc, ["games", NatToString(i), key]) ==
      if key in doc.fields["games"].items[i].fields then Found(doc.fields["games"].items[i].fields[key]) else Undefined
  {
    IndexOfNatToString(i);
    var p := ["games", NatToString(i), key];
    assert p[1..] == [NatToString(i), key] && p[1..][1..] == [key];
    var games := doc.fields["games"];
    assert Child(doc, "games") == Found(games);
    assert Child(games, NatToString(i)) == Found(games.items[i]);
    assert Get(doc, p) == Get(games, p[1..]);
    assert Get(games, p[1..]) == Get(games.items[i], [key]);
    assert [key][1..] == [];
    assert Child(games.items[i], key) == if key in games.items[i].fields then Found(games.items[i].fields[key]) else Undefined;
    if key in games.items[i].fields {
      assert Get(games.items[i].fields[key], []) == Found(games.items[i].fields[key]);
    }
    assert Get(games.items[i], [key]) == if key in games.items[i].fields then Found(games.items[i].fields[key]) else Undefined;
  }

  /**
   * As written, typing v into the icon input of a game whose icon is not v
   * leaves the icon as it was and overwrites the game's url with v.
   */
  lemma IconInputWritesUrl(doc: Value, i: nat, v: Value)
    requires HasGameRow(doc, i)
    requires doc.fields["games"].items[i].fields["icon"] != v
    ensures Writable(doc, GamePathAsWritten(i, IconInput))
    ensures var after := Updated(doc, GamePathAsWritten(i, IconInput), v);
      && Get(after, GamePath(i, IconInput)) == Get(doc, GamePath(i, IconInput))
      && Get(after, GamePath(i, IconInput)) != Found(v)
      && Get(after, GamePath(i, UrlInput)) == Found(v)
  {
    FormPathsWritable(doc, "title", "primary", "games", i, "url");
    var path := GamePathAsWritten(i, IconInput);
    assert path == GamePath(i, UrlInput);
    GameFieldRead(doc, i, "icon");
    GetAfterUpdated(doc, path, v);
    DivergesAtKey(NatToString(i), "url", "icon");
    UpdatedFrame(doc, path, v, GamePath(i, IconInput));
  }

  /** Two row paths that differ only in the last key part ways. */
  lemma DivergesAtKey(index: string, a: string, b: string)
    requires a != b
    ensures Diverges(["games", index, a], ["games", index, b])
  {
    var p, q := ["games", index, a], ["games", index, b];
    assert p[1..] == [index, a] && q[1..] == [index, b];
    assert p[1..][1..] == [a] && q[1..][1..] == [b];
  }

  /**
   * With each input writing the key it displays, typing v into any input of
   * a game row makes that key read v and leaves the row's other displayed
   * keys as they were.
   */
  lemma EveryInputWritesItsKey(doc: Value, i: nat, input: GameInput, v: Value)
    requires HasGameRow(doc, i)
    ensures Writable(doc, GamePath(i, input))
    ensures var after := Updated(doc, GamePath(i, input), v);
      && Get(after, GamePath(i, input)) == Found(v)
      && forall other :: other != input ==> Get(after, GamePath(i, other)) == Get(doc, GamePath(i, other))
  {
    FormPathsWritable(doc, "title", "primary", "games", i, Shown(input));
    GetAfterUpdated(doc, GamePath(i, input), v);
    forall other | other != input
      ensures Get(Updated(doc, GamePath(i, input), v), GamePath(i, other)) == Get(doc, GamePath(i, other))
    {
      GameFieldRead(doc, i, Shown(other));
      assert Shown(other) != Shown(input);
      DivergesAtKey(NatToString(i), Shown(input), Shown(other));
      UpdatedFrame(doc, GamePath(i, input), v, GamePath(i, other));
    }
  }
}
