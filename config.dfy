/**
 * The process-wide timezone of pkg/epic/fetcher.go: the package variable
 * `location` and the config file that `SetTimeZone` rewrites. The file is
 * abstracted to the states its loader can tell apart; its JSON encoding is not
 * modelled.
 */
module EpicConfig {
  import opened Wrappers
  import opened GoTime

  /** `Config`: the one persisted setting. */
  datatype Config = Config(timezone: string)

  /** config.json as `LoadConfig` finds it. */
  datatype ConfigFile = Missing | Unreadable | Malformed | Holds(config: Config)

  /** How the `os.WriteFile` of `SaveConfig` ends: written; failed to open, leaving the file as it
      was; failed after truncating, leaving a file that no longer decodes; or written whole but
      failed on close, so the error is reported although the file holds the new contents. */
  datatype WriteOutcome = Written | OpenFailed | WriteFailed | CloseFailed

  datatype ConfigError = ReadError | DecodeError | WriteError

  datatype TimeZoneError = UnknownTimeZone | SaveFailed(cause: ConfigError)

  /** What `LoadConfig` returns for each state of the file: a missing file is the empty config and no error. */
  function LoadResult(file: ConfigFile): (r: (Config, Option<ConfigError>))
    ensures r.1.None? <==> file.Missing? || file.Holds?
    ensures r.0 == if file.Holds? then file.config else Config("")
  {
    match file
    case Missing => (Config(""), None)
    case Unreadable => (Config(""), Some(ReadError))
    case Malformed => (Config(""), Some(DecodeError))
    case Holds(cfg) => (cfg, None)
  }

  /** The file after `SaveConfig(cfg)`: a successful write replaces it whole. */
  function AfterSave(file: ConfigFile, cfg: Config, outcome: WriteOutcome): ConfigFile
  {
    match outcome
    case Written => Holds(cfg)
    case OpenFailed => file
    case WriteFailed => Malformed
    case CloseFailed => Holds(cfg)
  }

  /** The error `SaveConfig` returns (marshalling a `Config` cannot fail). */
  function SaveError(outcome: WriteOutcome): Option<ConfigError>
  {
    if outcome == Written then None else Some(WriteError)
  }

  /** The in-memory location together with the file. */
  datatype Settings = Settings(location: Zone, file: ConfigFile)

  /** The settings after `SetTimeZone(tz)`: an unknown name changes nothing; a known one installs
      the location first and then saves, so a failed save still leaves the new location in effect. */
  function AfterSetTimeZone(s: Settings, tzdb: ZoneDatabase, tz: string, outcome: WriteOutcome): (r: Settings)
    ensures tzdb(tz).None? ==> r == s
    ensures tzdb(tz).Some? ==> r.location == tzdb(tz).value
    ensures tzdb(tz).Some? ==> r.file == AfterSave(s.file, Config(tz), outcome)
  {
    match tzdb(tz)
    case None => s
    case Some(loc) => Settings(loc, AfterSave(s.file, Config(tz), outcome))
  }

  /** The error `SetTimeZone(tz)` returns. */
  function SetTimeZoneError(tzdb: ZoneDatabase, tz: string, outcome: WriteOutcome): (err: Option<TimeZoneError>)
    ensures err.None? <==> tzdb(tz).Some? && outcome == Written
  {
    if tzdb(tz).None? then Some(UnknownTimeZone)
    else match SaveError(outcome)
      case None => None
      case Some(cause) => Some(SaveFailed(cause))
  }

  /** The package state: `location`, initially `time.UTC`, and config.json. `time.LoadLocation`
      is the fixed `tzdb`. */
  class ZoneState {
    const tzdb: ZoneDatabase
    var location: Zone
    var file: ConfigFile

    constructor (tzdb: ZoneDatabase, file: ConfigFile)
      ensures this.tzdb == tzdb && location == UTC && this.file == file
    {
      this.tzdb := tzdb;
      location := UTC;
      this.file := file;
    }

    function Current(): Settings
      reads this
    {
      Settings(location, file)
    }

    /** `GetTimeZone`: the location now in effect. */
    function GetTimeZone(): (loc: Zone)
      reads this
      ensures loc == Current().location
    {
      location
    }

    /** `LoadConfig`: reads the file, changing nothing. */
    method LoadConfig() returns (cfg: Config, err: Option<ConfigError>)
      ensures (cfg, err) == LoadResult(file)
      ensures file.Missing? ==> cfg == Config("") && err == None
    {
      match file
      case Missing => return Config(""), None;
      case Unreadable => return Config(""), Some(ReadError);
      case Malformed => return Config(""), Some(DecodeError);
      case Holds(c) => return c, None;
    }

    /** `SaveConfig`: rewrites the whole file. */
    method SaveConfig(cfg: Config, outcome: WriteOutcome) returns (err: Option<ConfigError>)
      modifies this`file
      ensures file == AfterSave(old(file), cfg, outcome)
      ensures err == SaveError(outcome)
    {
      match outcome
      case Written =>
        file := Holds(cfg);
        err := None;
      case OpenFailed =>
        err := Some(WriteError);
      case WriteFailed =>
        file := Malformed;
        err := Some(WriteError);
      case CloseFailed =>
        file := Holds(cfg);
        err := Some(WriteError);
    }

    /** `SetTimeZone`: looks the name up, installs the location, then persists the name. */
    method SetTimeZone(tz: string, outcome: WriteOutcome) returns (err: Option<TimeZoneError>)
      modifies this
      ensures Current() == AfterSetTimeZone(old(Current()), tzdb, tz, outcome)
      ensures err == SetTimeZoneError(tzdb, tz, outcome)
    {
      var loc := tzdb(tz);
      if loc.None? {
        return Some(UnknownTimeZone);
      }
      location := loc.value;
      var saveErr := SaveConfig(Config(tz), outcome);
      if saveErr.Some? {
        return Some(SaveFailed(saveErr.value));
      }
      return None;
    }
  }

  /** A load after a successful save returns the saved config. */
  lemma LoadAfterSave(file: ConfigFile, cfg: Config)
    ensures LoadResult(AfterSave(file, cfg, Written)) == (cfg, None)
  {
  }

  /** An unknown name is reported and leaves both the location and the file as they were. */
  lemma UnknownNameChangesNothing(s: Settings, tzdb: ZoneDatabase, tz: string, outcome: WriteOutcome)
    requires tzdb(tz).None?
    ensures AfterSetTimeZone(s, tzdb, tz, outcome) == s
    ensures SetTimeZoneError(tzdb, tz, outcome) == Some(UnknownTimeZone)
  {
  }

  /** A known name whose save fails is reported, yet the new location stays in effect. */
  lemma FailedSaveKeepsNewLocation(s: Settings, tzdb: ZoneDatabase, tz: string, outcome: WriteOutcome)
    requires tzdb(tz).Some? && outcome != Written
    ensures AfterSetTimeZone(s, tzdb, tz, outcome).location == tzdb(tz).value
    ensures SetTimeZoneError(tzdb, tz, outcome) == Some(SaveFailed(WriteError))
  {
  }

  /** After a successful change the next process start reads the name back and can look up the
      same location again. */
  lemma SuccessfulChangePersists(s: Settings, tzdb: ZoneDatabase, tz: string)
    requires tzdb(tz).Some?
    ensures var s' := AfterSetTimeZone(s, tzdb, tz, Written);
      && SetTimeZoneError(tzdb, tz, Written) == None
      && LoadResult(s'.file) == (Config(tz), None)
      && tzdb(LoadResult(s'.file).0.timezone) == Some(s'.location)
  {
  }

  /** A failed close is reported as a failed change, yet the name was written whole: the next
      process start reads it back without error. */
  lemma ReportedFailureCanPersist(s: Settings, tzdb: ZoneDatabase, tz: string)
    requires tzdb(tz).Some?
    ensures SetTimeZoneError(tzdb, tz, CloseFailed) == Some(SaveFailed(WriteError))
    ensures LoadResult(AfterSetTimeZone(s, tzdb, tz, CloseFailed).file) == (Config(tz), None)
  {
  }

  /** Last writer wins: a successful change makes the earlier settings irrelevant. */
  lemma LastChangeWins(s1: Settings, s2: Settings, tzdb: ZoneDatabase, tz: string)
    requires tzdb(tz).Some?
    ensures AfterSetTimeZone(s1, tzdb, tz, Written) == AfterSetTimeZone(s2, tzdb, tz, Written)
  {
  }
}
