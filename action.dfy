/*
 * The action protocol (src/action/mod.rs): the closed set of game effects a
 * reply from the content generator decodes into.
 *
 * The source derives serde's Serialize and Deserialize with an internal tag:
 * a reply is a mapping whose "type" entry names the variant and whose other
 * entries are the variant's fields. The YAML text itself is parsed by
 * serde_yaml; here decoding starts from the already-parsed mapping of keys to
 * string values.
 */
module Actions {

  datatype Action =
    | NewScene(name: string, desc: string)
    | AddToInventory(item: string, message: string)
    | RemoveFromInventory(item: string, message: string)
    | Information(message: string)
    | EndGame(message: string)

  /** A parsed mapping: key to scalar value. */
  type Fields = map<string, string>

  datatype DecodeError = MissingField(field: string) | UnknownVariant(tag: string)

  datatype Result<T> = Ok(value: T) | Err(error: DecodeError)

  /** The key that carries the variant's name. */
  const TypeKey: string := "type"

  /** The variant name, as written in the "type" entry. */
  function Tag(a: Action): string {
    match a
    case NewScene(_, _) => "NewScene"
    case AddToInventory(_, _) => "AddToInventory"
    case RemoveFromInventory(_, _) => "RemoveFromInventory"
    case Information(_) => "Information"
    case EndGame(_) => "EndGame"
  }

  /** The mapping serde's derived Serialize produces for an action. */
  function Encode(a: Action): Fields {
    match a
    case NewScene(name, desc) => map[TypeKey := "NewScene", "name" := name, "desc" := desc]
    case AddToInventory(item, message) =>
      map[TypeKey := "AddToInventory", "item" := item, "message" := message]
    case RemoveFromInventory(item, message) =>
      map[TypeKey := "RemoveFromInventory", "item" := item, "message" := message]
    case Information(message) => map[TypeKey := "Information", "message" := message]
    case EndGame(message) => map[TypeKey := "EndGame", "message" := message]
  }

  /** Every entry of `small` is present, with the same value, in `big`. */
  predicate SubMap(small: Fields, big: Fields) {
    forall k :: k in small ==> k in big && big[k] == small[k]
  }

  /** The value under `key`, or the error naming it when it is absent. */
  function Get(f: Fields, key: string): (r: Result<string>)
    ensures r.Ok? <==> key in f
    ensures r.Ok? ==> r.value == f[key]
    ensures r.Err? ==> r.error == MissingField(key)
  {
    if key in f then Ok(f[key]) else Err(MissingField(key))
  }

  /**
   * `Action::from_yaml` after parsing: the tag selects the variant, the
   * variant's fields are required, and entries it does not declare are ignored
   * (the enum does not deny unknown fields). A missing tag, an unknown tag or a
   * missing field is an error; there is no default action.
   */
  function Decode(f: Fields): (r: Result<Action>)
    ensures r.Ok? ==> SubMap(Encode(r.value), f)
    ensures TypeKey !in f ==> r == Err(MissingField(TypeKey))
  {
    if TypeKey !in f then Err(MissingField(TypeKey))
    else
      var tag := f[TypeKey];
      if tag == "NewScene" then
        match (Get(f, "name"), Get(f, "desc"))
        case (Ok(name), Ok(desc)) => Ok(NewScene(name, desc))
        case (Err(e), _) => Err(e)
        case (_, Err(e)) => Err(e)
      else if tag == "AddToInventory" || tag == "RemoveFromInventory" then
        match (Get(f, "item"), Get(f, "message"))
        case (Ok(item), Ok(message)) =>
          if tag == "AddToInventory" then Ok(AddToInventory(item, message))
          else Ok(RemoveFromInventory(item, message))
        case (Err(e), _) => Err(e)
        case (_, Err(e)) => Err(e)
      else if tag == "Information" || tag == "EndGame" then
        match Get(f, "message")
        case Ok(message) =>
          if tag == "Information" then Ok(Information(message)) else Ok(EndGame(message))
        case Err(e) => Err(e)
      else Err(UnknownVariant(tag))
  }

  // ---------------------------------------------------------------------------
  // Properties

  /** The variant names are pairwise distinct, so the tag identifies the variant. */
  lemma TagIdentifiesVariant(a: Action, b: Action)
    requires Tag(a) == Tag(b)
    ensures a.NewScene? == b.NewScene? && a.AddToInventory? == b.AddToInventory?
    ensures a.RemoveFromInventory? == b.RemoveFromInventory?
    ensures a.Information? == b.Information? && a.EndGame? == b.EndGame?
  {
    var ta, tb := Tag(a), Tag(b);
    assert ta[0] == tb[0] && |ta| == |tb|;
  }

  /** Decoding what serialization produces gives back the same action. */
  lemma DecodeEncode(a: Action)
    ensures Decode(Encode(a)) == Ok(a)
  {
  }

  /**
   * A mapping decodes to `a` exactly when it contains `a`'s encoding: the tag
   * and every declared field, with any further entries ignored.
   */
  lemma DecodeExactly(f: Fields, a: Action)
    ensures Decode(f) == Ok(a) <==> SubMap(Encode(a), f)
  {
    if SubMap(Encode(a), f) {
      assert TypeKey in Encode(a);
      assert f[TypeKey] == Tag(a);
      match a
      case NewScene(name, desc) =>
        assert "name" in Encode(a) && "desc" in Encode(a);
      case AddToInventory(item, message) =>
        assert "item" in Encode(a) && "message" in Encode(a);
      case RemoveFromInventory(item, message) =>
        assert "item" in Encode(a) && "message" in Encode(a);
      case Information(message) =>
        assert "message" in Encode(a);
      case EndGame(message) =>
        assert "message" in Encode(a);
    }
  }

  /** Decoding fails exactly when no action's encoding is contained in the mapping. */
  lemma DecodeFailsIffNoAction(f: Fields)
    ensures Decode(f).Err? <==> forall a :: !SubMap(Encode(a), f)
  {
    if Decode(f).Ok? {
      assert SubMap(Encode(Decode(f).value), f);
    } else {
      forall a ensures !SubMap(Encode(a), f) {
        DecodeExactly(f, a);
      }
    }
  }

  /** A tag that names no variant is rejected whatever else the mapping holds. */
  lemma UnknownTagRejected(f: Fields)
    requires TypeKey in f
    requires f[TypeKey] !in {"NewScene", "AddToInventory", "RemoveFromInventory", "Information", "EndGame"}
    ensures Decode(f) == Err(UnknownVariant(f[TypeKey]))
  {
  }
}
