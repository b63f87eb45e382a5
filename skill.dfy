/**
 * The ConfigurationSkill class of __init__.py: it fetches the device settings
 * and location, assembles the configuration, and reports a change only when
 * the configuration's hash differs from the one it stored last time.
 */
module Skill {
  import opened Wrappers
  import opened Values
  import opened Configuration

  /**
   * What the two calls to the remote device API give: the settings and the
   * location, an HTTP error status, or a request failure that is not an HTTP
   * error (no connection, a timeout).
   */
  datatype Fetch = Fetched(settings: Config, location: Value) | HttpFailure(status: int) | RequestFailure

  /**
   * Why an update fails: the API answered with an HTTP error, the request
   * itself failed, or the text-to-speech entry could not be chosen.  Only the
   * first is caught by the skill; the others escape.
   */
  datatype UpdateError = Http(status: int) | Request | Tts(error: TtsError)

  /** The error is not an HTTP error, so the skill's handlers do not catch it. */
  predicate Escapes(e: UpdateError) {
    !e.Http?
  }

  /** The stored hash: the empty string it starts as, or the hash of the last configuration announced. */
  datatype StoredHash = NoHash | Hashed(h: int)

  /** A message on the bus: its type and, for a configuration update, the configuration. */
  datatype Message = Message(msgType: string, data: Option<Config>)

  const ConfigUpdated: string := "configuration.updated"
  const NotPaired: string := "mycroft.not.paired"
  const DialogUpdated: string := "config.updated"
  const DialogNoChange: string := "config.no_change"
  const NotPairedWarning: string := "Impossible to update configuration because device isn't paired"

  /** The status code the API answers with when the device is not paired. */
  const Unauthorized: int := 401

  /**
   * The configuration update assembles: the fetched settings, with the
   * location when it is truthy, the settings list as parse_tts leaves it, and
   * the chosen text-to-speech entry under 'tts'.
   */
  function Assemble(settings: Config, location: Value): Result<Config, TtsError> {
    var located := if Truthy(location) then settings["location" := location] else settings;
    var source := if "ttsSettings" in located then located["ttsSettings"] else List([]);
    match TtsEntry(source)
    case Err(e) => Err(e)
    case Ok(c) =>
      var mutated := if "ttsSettings" in located then located["ttsSettings" := List(c.updated)] else located;
      Ok(mutated["tts" := TtsValue(c)])
  }

  /** The outcome of one update: its result, the hash stored afterwards, and the messages emitted. */
  datatype UpdateOutcome = UpdateOutcome(result: Result<bool, UpdateError>, stored: StoredHash, emitted: seq<Message>)

  /** One update from the stored hash `stored`, with `hashOf` standing for hash(str(config)). */
  function UpdateStep(stored: StoredHash, hashOf: Config -> int, fetch: Fetch): UpdateOutcome {
    match fetch
    case HttpFailure(status) => UpdateOutcome(Err(Http(status)), stored, [])
    case RequestFailure => UpdateOutcome(Err(Request), stored, [])
    case Fetched(settings, location) =>
      match Assemble(settings, location)
      case Err(e) => UpdateOutcome(Err(Tts(e)), stored, [])
      case Ok(config) =>
        if stored != Hashed(hashOf(config)) then
          UpdateOutcome(Ok(true), Hashed(hashOf(config)), [Message(ConfigUpdated, Some(config))])
        else
          UpdateOutcome(Ok(false), stored, [])
  }

  /**
   * The assembled configuration always holds the chosen text-to-speech entry
   * under 'tts', holds a truthy location under 'location', and otherwise keeps
   * every fetched setting except the stripped settings list.
   */
  lemma AssembledConfiguration(settings: Config, location: Value)
    requires Assemble(settings, location).Ok?
    ensures var config := Assemble(settings, location).value;
      && "ttsSettings" in settings
      && TtsEntry(settings["ttsSettings"]).Ok?
      && config["tts"] == TtsValue(TtsEntry(settings["ttsSettings"]).value)
      && config["ttsSettings"] == List(TtsEntry(settings["ttsSettings"]).value.updated)
      && (Truthy(location) ==> config["location"] == location)
      && (!Truthy(location) ==> ("location" in config <==> "location" in settings))
      && (!Truthy(location) && "location" in settings ==> config["location"] == settings["location"])
      && config.Keys == settings.Keys + {"tts"} + (if Truthy(location) then {"location"} else {})
      && forall key :: key in settings && key !in {"tts", "location", "ttsSettings"} ==> config[key] == settings[key]
  {
  }

  /** Missing 'ttsSettings' is treated as an empty list, and so fails with no active entry. */
  lemma MissingTtsSettingsFails(settings: Config, location: Value)
    requires "ttsSettings" !in settings
    ensures Assemble(settings, location) == Err(NoActiveEntry)
  {
  }

  /** An update reports a change, and emits, exactly when the configuration's hash differs from the stored one. */
  lemma UpdateReportsChangeIffHashDiffers(stored: StoredHash, hashOf: Config -> int, settings: Config, location: Value)
    requires Assemble(settings, location).Ok?
    ensures var config := Assemble(settings, location).value;
      var o := UpdateStep(stored, hashOf, Fetched(settings, location));
      && o.result == Ok(stored != Hashed(hashOf(config)))
      && o.stored == Hashed(hashOf(config))
      && (o.emitted != [] <==> o.result == Ok(true))
      && (o.result == Ok(true) ==> o.emitted == [Message(ConfigUpdated, Some(config))])
  {
  }

  /** A failed update changes nothing and emits nothing. */
  lemma FailedUpdateChangesNothing(stored: StoredHash, hashOf: Config -> int, fetch: Fetch)
    requires UpdateStep(stored, hashOf, fetch).result.Err?
    ensures UpdateStep(stored, hashOf, fetch).stored == stored
    ensures UpdateStep(stored, hashOf, fetch).emitted == []
  {
  }

  /** The first update that assembles a configuration always reports a change: the stored hash starts empty. */
  lemma FirstUpdateReportsChange(hashOf: Config -> int, settings: Config, location: Value)
    requires Assemble(settings, location).Ok?
    ensures UpdateStep(NoHash, hashOf, Fetched(settings, location)).result == Ok(true)
  {
  }

  /** Updating again with the same fetched data reports no change, emits nothing and keeps the stored hash. */
  lemma UpdateIdempotent(stored: StoredHash, hashOf: Config -> int, fetch: Fetch)
    requires UpdateStep(stored, hashOf, fetch).result.Ok?
    ensures var first := UpdateStep(stored, hashOf, fetch);
      UpdateStep(first.stored, hashOf, fetch) == UpdateOutcome(Ok(false), first.stored, [])
  {
  }

  /** __api_error: only an unpaired device (401) is announced on the bus. */
  function ApiErrorMessage(status: int): (m: Option<Message>)
    ensures m.Some? <==> status == Unauthorized
  {
    if status == Unauthorized then Some(Message(NotPaired, None)) else None
  }

  /**
   * What handle_update_intent does with the result of an update: the dialog it
   * speaks, the message it emits, and the error it lets escape.
   */
  datatype IntentReaction = IntentReaction(dialog: Option<string>, message: Option<Message>, escaped: Option<UpdateError>)

  function ReactToIntent(r: Result<bool, UpdateError>): IntentReaction {
    match r
    case Ok(changed) => IntentReaction(Some(if changed then DialogUpdated else DialogNoChange), None, None)
    case Err(Http(status)) => IntentReaction(None, ApiErrorMessage(status), None)
    case Err(e) => IntentReaction(None, None, Some(e))
  }

  /**
   * The user is told "config.updated" when the update changed something and
   * "config.no_change" when it did not; an HTTP error speaks nothing and
   * emits the not-paired message for 401 only; any other error escapes as it is.
   */
  lemma IntentReactionCases(r: Result<bool, UpdateError>)
    ensures ReactToIntent(r).dialog == Some(DialogUpdated) <==> r == Ok(true)
    ensures ReactToIntent(r).dialog == Some(DialogNoChange) <==> r == Ok(false)
    ensures ReactToIntent(r).message.Some? <==> r == Err(Http(Unauthorized))
    ensures ReactToIntent(r).escaped == (if r.Err? && Escapes(r.error) then Some(r.error) else None)
  {
  }

  /** Asking twice with the same fetched data: the second answer is always "config.no_change". */
  lemma SecondAskReportsNoChange(stored: StoredHash, hashOf: Config -> int, fetch: Fetch)
    requires UpdateStep(stored, hashOf, fetch).result.Ok?
    ensures var first := UpdateStep(stored, hashOf, fetch);
      ReactToIntent(UpdateStep(first.stored, hashOf, fetch).result).dialog == Some(DialogNoChange)
  {
  }

  /**
   * What notify does with the result of an update: whether it logs the
   * not-paired warning, whether it reaches schedule() (an error other than
   * an HTTP error escapes before it), and the error that escapes.
   */
  datatype NotifyReaction = NotifyReaction(warn: bool, reschedule: bool, escaped: Option<UpdateError>)

  function ReactToNotify(r: Result<bool, UpdateError>): (n: NotifyReaction)
    ensures n.warn <==> r == Err(Http(Unauthorized))
    ensures !n.reschedule <==> r.Err? && Escapes(r.error)
    ensures n.escaped == (if r.Err? && Escapes(r.error) then Some(r.error) else None)
  {
    match r
    case Ok(_) => NotifyReaction(false, true, None)
    case Err(Http(status)) => NotifyReaction(status == Unauthorized, true, None)
    case Err(e) => NotifyReaction(false, false, Some(e))
  }

  /** The skill's state: the stored hash and the logs of what it emitted, spoke and warned. */
  class ConfigurationSkill {
    /** hash(str(config)): deterministic within one run, otherwise unknown. */
    const hashOf: Config -> int
    var configHash: StoredHash
    var emitted: seq<Message>
    var spoken: seq<string>
    var warnings: seq<string>
    /** How many times notify has asked to be scheduled again. */
    var reschedules: nat

    constructor (hashOf: Config -> int)
      ensures this.hashOf == hashOf
      ensures configHash == NoHash
      ensures emitted == [] && spoken == [] && warnings == [] && reschedules == 0
    {
      this.hashOf := hashOf;
      configHash := NoHash;
      emitted, spoken, warnings, reschedules := [], [], [], 0;
    }

    /** update: assemble the configuration and announce it if its hash changed. */
    method Update(fetch: Fetch) returns (r: Result<bool, UpdateError>)
      modifies this`configHash, this`emitted
      ensures var o := UpdateStep(old(configHash), hashOf, fetch);
        && r == o.result
        && configHash == o.stored
        && emitted == old(emitted) + o.emitted
    {
      if fetch.HttpFailure? {
        return Err(Http(fetch.status));
      }
      if fetch.RequestFailure? {
        return Err(Request);
      }
      var config := fetch.settings;
      if Truthy(fetch.location) {
        config := config["location" := fetch.location];
      }
      var source := if "ttsSettings" in config then config["ttsSettings"] else List([]);
      var parsed := ParseTts(source);
      if parsed.Err? {
        return Err(Tts(parsed.error));
      }
      if "ttsSettings" in config {
        // parse_tts stripped the chosen entry of the list held in the configuration
        config := config["ttsSettings" := List(parsed.value.updated)];
      }
      config := config["tts" := TtsValue(parsed.value)];
      assert Assemble(fetch.settings, fetch.location) == Ok(config);
      if configHash != Hashed(hashOf(config)) {
        emitted := emitted + [Message(ConfigUpdated, Some(config))];
        configHash := Hashed(hashOf(config));
        r := Ok(true);
      } else {
        r := Ok(false);
      }
    }

    /** __api_error: emit the not-paired message for a 401 status. */
    method ApiError(status: int)
      modifies this`emitted
      ensures var m := ApiErrorMessage(status);
        emitted == old(emitted) + (if m.Some? then [m.value] else [])
    {
      if status == Unauthorized {
        emitted := emitted + [Message(NotPaired, None)];
      }
    }

    /** handle_update_intent: update, then speak the outcome; returns the error that escapes, if any. */
    method HandleUpdateIntent(fetch: Fetch) returns (escaped: Option<UpdateError>)
      modifies this`configHash, this`emitted, this`spoken
      ensures var o := UpdateStep(old(configHash), hashOf, fetch);
        var reaction := ReactToIntent(o.result);
        && configHash == o.stored
        && emitted == old(emitted) + o.emitted + (if reaction.message.Some? then [reaction.message.value] else [])
        && spoken == old(spoken) + (if reaction.dialog.Some? then [reaction.dialog.value] else [])
        && escaped == reaction.escaped
    {
      escaped := None;
      var r := Update(fetch);
      match r {
        case Ok(changed) =>
          if changed {
            spoken := spoken + [DialogUpdated];
          } else {
            spoken := spoken + [DialogNoChange];
          }
        case Err(Http(status)) =>
          ApiError(status);
        case Err(e) =>
          escaped := Some(e);
      }
    }

    /** notify: the scheduled update; warns when unpaired and schedules itself again unless an error escaped. */
    method Notify(fetch: Fetch) returns (escaped: Option<UpdateError>)
      modifies this`configHash, this`emitted, this`warnings, this`reschedules
      ensures var o := UpdateStep(old(configHash), hashOf, fetch);
        var reaction := ReactToNotify(o.result);
        && configHash == o.stored
        && emitted == old(emitted) + o.emitted
        && warnings == old(warnings) + (if reaction.warn then [NotPairedWarning] else [])
        && reschedules == old(reschedules) + (if reaction.reschedule then 1 else 0)
        && escaped == reaction.escaped
    {
      escaped := None;
      var r := Update(fetch);
      if r.Err? && !r.error.Http? {
        return Some(r.error);
      }
      if r.Err? && r.error.status == Unauthorized {
        warnings := warnings + [NotPairedWarning];
      }
      reschedules := reschedules + 1;
    }
  }
}
