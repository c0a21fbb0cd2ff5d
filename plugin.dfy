/**
 * The `process_ucs_syslog` filter: the record update of `filter`, and the
 * plugin object whose methods read and write the `/tmp/token` slot and call
 * the controller. Each method is proved equal to the functions of UcsApi and
 * of this module, whose properties are the lemmas.
 */
module UcsPlugin {
  import opened Wrappers
  import opened UcsText
  import opened UcsApi

  /** `ucsHostNameKey`, `coloregion`, and the login credentials (`domain`, `username`, the password file's contents). */
  datatype Config = Config(ucsHostNameKey: string, coloregion: string, cred: Credentials)

  /** The only keys `filter` ever writes. */
  const EnrichedKeys: set<string> := {"event", "stage", "machineId"}

  function MachineId(coloregion: string, profile: string): string {
    "Cisco_UCS:" + coloregion + ":" + profile
  }

  /** Within one region, the machine id determines the service profile it was built from. */
  lemma MachineIdInjective(coloregion: string, p1: string, p2: string)
    requires MachineId(coloregion, p1) == MachineId(coloregion, p2)
    ensures p1 == p2
  {
    var n := |"Cisco_UCS:" + coloregion + ":"|;
    assert p1 == MachineId(coloregion, p1)[n..];
    assert p2 == MachineId(coloregion, p2)[n..];
  }

  function SetIfPresent(rec: map<string, string>, key: string, v: Option<string>): map<string, string> {
    match v
    case Some(x) => rec[key := x]
    case None => rec
  }

  /** The record after the `event` and `stage` writes of lines 26-34. */
  function Classified(rec: map<string, string>, message: string): map<string, string> {
    SetIfPresent(SetIfPresent(rec, "event", DetermineEvent(message)), "stage", DetermineStage(message))
  }

  /** `record[ucsHostNameKey]`, interpolated into the URL: a missing key gives "". */
  function HostOf(cfg: Config, rec: map<string, string>): string {
    if cfg.ucsHostNameKey in rec then rec[cfg.ucsHostNameKey] else ""
  }

  /**
   * `filter(tag, time, record)`: the new record and session. A missing
   * `message` is Ruby's nil, which no classifier matches and which `!~` the
   * blade regex, so the record comes back unchanged.
   */
  function Filtered(cfg: Config, api: Api, s: Session, rec: map<string, string>): (r: (map<string, string>, Session))
    ensures forall k :: k in rec && k !in EnrichedKeys ==> k in r.0 && r.0[k] == rec[k]
    ensures forall k :: k in r.0 ==> k in rec || k in EnrichedKeys
    ensures "message" !in rec ==> r == (rec, s)
  {
    if "message" !in rec then (rec, s)
    else
      var message := rec["message"];
      var classified := Classified(rec, message);
      match MatchBladeDn(message)
      case None => (classified, s)
      case Some(dn) =>
        var (profile, s') := ServiceProfile(cfg.cred, api, s, HostOf(cfg, classified), dn, 1);
        (classified["machineId" := MachineId(cfg.coloregion, profile)], s')
  }

  /** `event` and `stage` are written exactly when their detector returns a value. */
  lemma FilteredDetectors(cfg: Config, api: Api, s: Session, rec: map<string, string>)
    requires "message" in rec
    ensures var out := Filtered(cfg, api, s, rec).0;
            var m := rec["message"];
            && (DetermineEvent(m).Some? ==> "event" in out && out["event"] == DetermineEvent(m).value)
            && (DetermineEvent(m).None? ==>
                  ("event" in out <==> "event" in rec) && ("event" in rec ==> out["event"] == rec["event"]))
            && (DetermineStage(m).Some? ==> "stage" in out && out["stage"] == DetermineStage(m).value)
            && (DetermineStage(m).None? ==>
                  ("stage" in out <==> "stage" in rec) && ("stage" in rec ==> out["stage"] == rec["stage"]))
  {
  }

  /** Without a blade dn in the message no call is made and `machineId` is untouched. */
  lemma FilteredNoBlade(cfg: Config, api: Api, s: Session, rec: map<string, string>)
    requires "message" in rec && MatchBladeDn(rec["message"]).None?
    ensures var (out, s') := Filtered(cfg, api, s, rec);
            && s' == s
            && out == Classified(rec, rec["message"])
            && ("machineId" in out <==> "machineId" in rec)
            && ("machineId" in rec ==> out["machineId"] == rec["machineId"])
  {
  }

  /**
   * With a blade dn, the leftmost `sys/chassis-D/blade-D` is looked up on the
   * host named by `ucsHostNameKey` with `retries == 1`: at most five queries
   * and ten calls, and `machineId` is the prefix followed by "" or a profile.
   */
  lemma FilteredMachineId(cfg: Config, api: Api, s: Session, rec: map<string, string>)
    requires "message" in rec && MatchBladeDn(rec["message"]).Some?
    ensures var m := rec["message"];
            var dn := MatchBladeDn(m).value;
            var host := HostOf(cfg, Classified(rec, m));
            var (profile, s1) := ServiceProfile(cfg.cred, api, s, host, dn, 1);
            var (out, s') := Filtered(cfg, api, s, rec);
            && IsBladeDn(dn)
            && s' == s1
            && "machineId" in out && out["machineId"] == MachineId(cfg.coloregion, profile)
            && (profile == "" || AllInClass(profile, DnChar))
            && Count(s'.calls, QueryPrefix) <= Count(s.calls, QueryPrefix) + 5
            && |s'.calls| <= |s.calls| + 10
  {
    var m := rec["message"];
    MatchBladeDnSpec(m);
    var dn := MatchBladeDn(m).value;
    var host := HostOf(cfg, Classified(rec, m));
    ServiceProfileBounded(cfg.cred, api, s, host, dn, 1);
    ServiceProfileResult(cfg.cred, api, s, host, dn, 1);
  }

  /** The host is read after the detectors' writes, so it is the record's own unless the key is `event` or `stage`. */
  lemma HostIsRecordsOwn(cfg: Config, rec: map<string, string>, message: string)
    requires cfg.ucsHostNameKey !in {"event", "stage"}
    ensures HostOf(cfg, Classified(rec, message)) == HostOf(cfg, rec)
  {
  }

  /** The string-keyed hash handed to `filter`, updated in place. */
  class Record {
    var fields: map<string, string>

    constructor (fields: map<string, string>)
      ensures this.fields == fields
    {
      this.fields := fields;
    }
  }

  /** The plugin instance: its configuration, the controller, the token file and the calls made. */
  class ProcessUcsSyslog {
    const config: Config
    const api: Api
    var tokenFile: Option<string>
    var calls: seq<Request>

    function State(): Session
      reads this
    {
      Session(tokenFile, calls)
    }

    constructor (config: Config, api: Api, tokenFile: Option<string>)
      ensures this.config == config && this.api == api
      ensures State() == Session(tokenFile, [])
    {
      this.config := config;
      this.api := api;
      this.tokenFile := tokenFile;
      this.calls := [];
    }

    /** `callUcsApi(host, body)`: one exchange with the controller. */
    method CallUcsApi(host: string, body: string) returns (response: string)
      modifies this
      ensures calls == old(calls) + [Request(host, body)] && response == api(calls)
      ensures tokenFile == old(tokenFile)
      ensures (response, State()) == Send(api, old(State()), host, body)
    {
      calls := calls + [Request(host, body)];
      response := api(calls);
    }

    /** `getToken(host)`. */
    method GetToken(host: string) returns (token: string)
      modifies this
      ensures tokenFile == Some(token)
      ensures old(tokenFile).Some? ==> token == old(tokenFile).value && calls == old(calls)
      ensures (token, State()) == Token(config.cred, api, old(State()), host)
    {
      if tokenFile.Some? {
        token := tokenFile.value;
        return;
      }
      var response := CallUcsApi(host, LoginBody(config.cred));
      token := OutCookie(response);
      tokenFile := Some(token);
    }

    /** `getServiceProfile(host, dn, retries)`. */
    method GetServiceProfile(host: string, dn: string, retries: int) returns (profile: string)
      modifies this
      ensures (profile, State()) == ServiceProfile(config.cred, api, old(State()), host, dn, retries)
      decreases Attempts(retries)
    {
      if retries > 5 {
        return "";
      }
      var token := GetToken(host);
      var response := CallUcsApi(host, QueryBody(token, dn));
      profile := AssignedToDn(response).GetOr("");
      if profile == "" {
        // `File.delete` cannot raise here: getToken has just left the token file in place.
        assert tokenFile.Some?;
        tokenFile := None;
        profile := GetServiceProfile(host, dn, retries + 1);
      }
    }

    /** `filter(tag, time, record)`: updates `record` in place and returns it. */
    method Filter(record: Record) returns (result: Record)
      modifies this, record
      ensures result == record
      ensures (record.fields, State()) == Filtered(config, api, old(State()), old(record.fields))
    {
      result := record;
      if "message" !in record.fields {
        return;
      }
      var message := record.fields["message"];
      var event := DetermineEvent(message);
      if event.Some? {
        record.fields := record.fields["event" := event.value];
      }
      var stage := DetermineStage(message);
      if stage.Some? {
        record.fields := record.fields["stage" := stage.value];
      }
      var dn := MatchBladeDn(message);
      if dn.None? {
        return;
      }
      var host := HostOf(config, record.fields);
      var serviceProfile := GetServiceProfile(host, dn.value, 1);
      record.fields := record.fields["machineId" := MachineId(config.coloregion, serviceProfile)];
    }
  }
}
