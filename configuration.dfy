/**
 * parse_tts of __init__.py: choosing the active text-to-speech system from the
 * settings list, stripping its server-only keys in place, and building the
 * configuration's 'tts' entry from it.
 */
module Configuration {
  import opened Wrappers
  import opened Values

  /** A configuration dictionary. */
  type Config = map<string, Value>

  /** Why choosing the text-to-speech entry fails. */
  datatype TtsError =
    | NotIterable       // the settings value cannot be iterated (None, a number, a boolean)
    | EntryWithoutGet   // an entry reached before an active one is not a dictionary
    | NoActiveEntry     // no entry is active (including no entry at all)
    | MissingType       // the active entry has no '@type'
    | TypeNotString     // the active entry's '@type' is not a string

  /**
   * The successful outcome of choosing the text-to-speech entry: the index of
   * the chosen entry, its type, the entry with the server-only keys removed,
   * and the settings list as it is left, with the chosen entry stripped in place.
   */
  datatype TtsChoice = TtsChoice(index: nat, moduleName: string, entry: Config, updated: seq<Value>)

  /** The keys only the server uses, removed from the chosen entry. */
  const ServerKeys: set<string> := {"@type", "active"}

  /** The entry's 'active' value is truthy. */
  predicate Active(v: Value) {
    v.Dict? && Truthy(Get(v.entries, "active"))
  }

  /** Where the search for the active entry stops: at the first active entry, or with an error. */
  function FirstActive(items: seq<Value>): (r: Result<nat, TtsError>)
    ensures r.Ok? ==> r.value < |items| && Active(items[r.value])
    ensures r.Err? ==> r.error == NoActiveEntry || r.error == EntryWithoutGet
  {
    if items == [] then Err(NoActiveEntry)
    else if !items[0].Dict? then Err(EntryWithoutGet)
    else if Active(items[0]) then Ok(0)
    else match FirstActive(items[1..])
      case Ok(k) => Ok(k + 1)
      case Err(e) => Err(e)
  }

  /** The text-to-speech entry chosen from `items`, once the search has stopped at index `k`. */
  function ChooseAt(items: seq<Value>, k: nat): Result<TtsChoice, TtsError>
    requires k < |items| && Active(items[k])
  {
    var entry := items[k].entries;
    if "@type" !in entry then Err(MissingType)
    else if !entry["@type"].Str? then Err(TypeNotString)
    else
      var stripped := entry - ServerKeys;
      Ok(TtsChoice(k, entry["@type"].s, stripped, items[k := Dict(stripped)]))
  }

  /** What parse_tts does with the value of 'ttsSettings'. */
  function TtsEntry(settings: Value): Result<TtsChoice, TtsError> {
    match settings
    case List(items) =>
      (match FirstActive(items)
       case Ok(k) => ChooseAt(items, k)
       case Err(e) => Err(e))
    // iterating a dictionary yields its keys, a string its characters: neither has .get
    case Dict(entries) => if entries == map[] then Err(NoActiveEntry) else Err(EntryWithoutGet)
    case Str(s) => if s == [] then Err(NoActiveEntry) else Err(EntryWithoutGet)
    case _ => Err(NotIterable)
  }

  /** The 'tts' entry of the configuration: the module's name, and its settings under that name. */
  function TtsValue(c: TtsChoice): Value {
    Dict(map["module" := Str(c.moduleName)][c.moduleName := Dict(c.entry)])
  }

  /** Skipping entries that are dictionaries with a falsy 'active' does not change where the search stops. */
  lemma {:induction false} FirstActiveSkip(items: seq<Value>, i: nat)
    requires i <= |items|
    requires forall j :: 0 <= j < i ==> items[j].Dict? && !Active(items[j])
    ensures FirstActive(items)
         == match FirstActive(items[i..])
            case Ok(k) => Ok(k + i)
            case Err(e) => Err(e)
  {
    if i > 0 {
      assert items[0].Dict? && !Active(items[0]);
      var rest := items[1..];
      assert forall j :: 0 <= j < i - 1 ==> rest[j] == items[j + 1];
      FirstActiveSkip(rest, i - 1);
      assert rest[i - 1..] == items[i..];
    } else {
      assert items[0..] == items;
    }
  }

  /** The search stops at `k` exactly when `k` is the first active entry and every entry before it is a dictionary. */
  lemma FirstActiveIsFirst(items: seq<Value>, k: nat)
    ensures FirstActive(items) == Ok(k)
        <==> && k < |items| && Active(items[k])
             && forall j :: 0 <= j < k ==> items[j].Dict? && !Active(items[j])
  {
    if FirstActive(items) == Ok(k) {
      FirstActiveBefore(items);
    }
    if k < |items| && Active(items[k]) && forall j :: 0 <= j < k ==> items[j].Dict? && !Active(items[j]) {
      FirstActiveSkip(items, k);
    }
  }

  /** Every entry before the one the search stops at is a dictionary and not active. */
  lemma {:induction false} FirstActiveBefore(items: seq<Value>)
    requires FirstActive(items).Ok?
    ensures forall j :: 0 <= j < FirstActive(items).value ==> items[j].Dict? && !Active(items[j])
  {
    if !Active(items[0]) {
      var rest := items[1..];
      FirstActiveBefore(rest);
      forall j | 0 <= j < FirstActive(items).value
        ensures items[j].Dict? && !Active(items[j])
      {
        if j > 0 {
          assert items[j] == rest[j - 1];
        }
      }
    }
  }

  /** With a list of dictionaries none of which is active (an empty list too), there is nothing to choose. */
  lemma NoActiveEntryIsError(items: seq<Value>)
    requires forall j :: 0 <= j < |items| ==> items[j].Dict? && !Active(items[j])
    ensures TtsEntry(List(items)) == Err(NoActiveEntry)
  {
    FirstActiveSkip(items, |items|);
  }

  /**
   * A successful choice is the first active entry of a list: its type becomes
   * the module's name, the entry keeps every key but '@type' and 'active'
   * with its value unchanged, and the list is left with that entry stripped.
   */
  lemma ChoiceIsFirstActiveStripped(settings: Value)
    requires TtsEntry(settings).Ok?
    ensures var c := TtsEntry(settings).value;
      && settings.List?
      && c.index < |settings.items|
      && Active(settings.items[c.index])
      && (forall j :: 0 <= j < c.index ==> settings.items[j].Dict? && !Active(settings.items[j]))
      && var original := settings.items[c.index].entries;
      && "@type" in original && original["@type"] == Str(c.moduleName)
      && c.entry.Keys == original.Keys - ServerKeys
      && (forall key :: key in c.entry ==> c.entry[key] == original[key])
      && c.updated == settings.items[c.index := Dict(c.entry)]
  {
    FirstActiveIsFirst(settings.items, TtsEntry(settings).value.index);
  }

  /** A later active entry never matters: appending anything after the first active entry changes nothing. */
  lemma LaterEntriesIgnored(items: seq<Value>, more: seq<Value>)
    requires FirstActive(items).Ok?
    ensures TtsEntry(List(items + more)).Ok? == TtsEntry(List(items)).Ok?
    ensures TtsEntry(List(items)).Ok? ==>
      && TtsEntry(List(items + more)).value.moduleName == TtsEntry(List(items)).value.moduleName
      && TtsEntry(List(items + more)).value.entry == TtsEntry(List(items)).value.entry
  {
    var k := FirstActive(items).value;
    FirstActiveIsFirst(items, k);
    FirstActiveIsFirst(items + more, k);
  }

  /** The chosen entry's '@type' being absent is an error. */
  lemma MissingTypeIsError(items: seq<Value>)
    requires FirstActive(items).Ok?
    requires "@type" !in items[FirstActive(items).value].entries
    ensures TtsEntry(List(items)) == Err(MissingType)
  {
  }

  /** Putting the server-only keys back into the stripped entry gives the original entry. */
  lemma StrippedEntryRestores(settings: Value)
    requires TtsEntry(settings).Ok?
    ensures var c := TtsEntry(settings).value;
      var original := settings.items[c.index].entries;
      (if "active" in original then c.entry["active" := original["active"]] else c.entry)["@type" := Str(c.moduleName)]
        == original
  {
  }

  /** The returned entry names the module under 'module' and holds its settings under the module's name. */
  lemma TtsValueShape(c: TtsChoice)
    requires c.moduleName != "module"
    ensures TtsValue(c).entries.Keys == {"module", c.moduleName}
    ensures TtsValue(c).entries["module"] == Str(c.moduleName)
    ensures TtsValue(c).entries[c.moduleName] == Dict(c.entry)
  {
  }

  /** A module whose type is literally "module" overwrites the 'module' key with its settings. */
  lemma TtsValueNamedModule(c: TtsChoice)
    requires c.moduleName == "module"
    ensures TtsValue(c) == Dict(map["module" := Dict(c.entry)])
  {
  }

  /** The loop of parse_tts: walk the entries, stop at the first active one, then strip it in place. */
  method ParseTts(settings: Value) returns (r: Result<TtsChoice, TtsError>)
    ensures r == TtsEntry(settings)
  {
    var items: seq<Value>;
    match settings {
      case List(xs) =>
        items := xs;
      case Dict(entries) =>
        return if entries == map[] then Err(NoActiveEntry) else Err(EntryWithoutGet);
      case Str(s) =>
        return if s == [] then Err(NoActiveEntry) else Err(EntryWithoutGet);
      case _ =>
        return Err(NotIterable);
    }
    var used: Option<nat> := None;
    for i := 0 to |items|
      invariant forall j :: 0 <= j < i ==> items[j].Dict? && !Active(items[j])
    {
      if !items[i].Dict? {
        FirstActiveSkip(items, i);
        return Err(EntryWithoutGet);
      }
      if Truthy(Get(items[i].entries, "active")) {
        used := Some(i);
        break;
      }
    }
    if used == None {
      NoActiveEntryIsError(items);
      return Err(NoActiveEntry);
    }
    var k := used.value;
    FirstActiveIsFirst(items, k);
    var entry := items[k].entries;
    if "@type" !in entry {
      return Err(MissingType);
    }
    var typeValue := entry["@type"];
    if !typeValue.Str? {
      return Err(TypeNotString);
    }
    if "@type" in entry {
      entry := entry - {"@type"};
    }
    if "active" in entry {
      entry := entry - {"active"};
    }
    assert entry == items[k].entries - ServerKeys;
    items := items[k := Dict(entry)];
    r := Ok(TtsChoice(k, typeValue.s, entry, items));
  }
}
