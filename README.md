# process_ucs_syslog filter, modelled in Dafny

This project models the `process_ucs_syslog` Fluentd filter
(`lib/fluent/plugin/filter_process_ucs_syslog.rb`). The filter enriches one
syslog record from a Cisco UCS blade controller at a time:

- it classifies the message text into one of four lifecycle events;
- it extracts the `[FSM:<word>]` stage, lower-cased;
- it finds the first `sys/chassis-D/blade-D` dn in the message;
- for that dn it asks the controller's XML API for the assigned service
  profile and writes `machineId = "Cisco_UCS:<coloregion>:<profile>"`.

The API calls go through a single cached login token (the `/tmp/token` file).
The profile lookup retries, deleting the token after each empty answer, until
`retries` exceeds 5.

Files and modules:

- `wrappers.dfy` (`Wrappers`): `Option`, standing for Ruby's nil.
- `text.dfy` (`UcsText`): `determineEvent`, `determineStage`, the blade-dn regex
  and a leftmost-match capture for regexes of the form `open(class+)close`.
  Each comes with lemmas against a direct, regex-level definition of a match.
- `api.dfy` (`UcsApi`): the request bodies, the `outCookie` and `assignedToDn`
  extractors, and `getToken` / `getServiceProfile` as functions over a
  `Session` value. A `Session` is the token file plus the log of every call
  made. The lemmas cover the retry bound, the login count and the result.
- `plugin.dfy` (`UcsPlugin`): `filter` as a function on the record map, its
  frame and enrichment lemmas, and the class `ProcessUcsSyslog`.
  `ProcessUcsSyslog` holds the token file as `tokenFile: Option<string>` and
  the call log. Its methods `CallUcsApi`, `GetToken`, `GetServiceProfile` and
  `Filter` update that state and the `Record` in place. Each method is proved
  equal to the matching function.

The controller is an oracle, `Api = seq<Request> -> string`. It gives the
response to the last request of the call history. It can therefore express
any server that answers every call with a body, including one whose answers
change between retries. It cannot express a call that raises or returns a nil
body; "## Left out" lists those cases. The password file's contents are a
constant in `Credentials`. A host missing from the record and a token that is
nil both interpolate as `""` in Ruby, so both are modelled as `""`.

The model follows the code, not the test file. In the code:

- events are capitalised (`"Soft Shutdown"`);
- only the `event`, `stage` and `machineId` fields are written;
- `event` and `stage` are written only when their detector finds something;
- `machineId` is written whenever the message has a blade dn, even when the
  lookup gives up. All five queries may come back without `assignedToDn`;
  then `machineId` is `Cisco_UCS:<coloregion>:` with an empty profile, not
  `""` as the test file expects (`FilteredMachineId` allows `profile == ""`);
- there are no `type`/`severity`/`error` fields, no redaction and no token
  refresh;
- chassis and blade numbers are single digits. `TwoDigitBladeIsTruncated` and
  `TwoDigitChassisIsMissed` prove what the single-digit pattern does with
  two-digit numbers.

## Model

| member | source | states |
|---|---|---|
| UcsText.DetermineEventFirstRule | lib/fluent/plugin/filter_process_ucs_syslog.rb:47-59 | the event is nil iff none of `Power-on`, `Soft shutdown`, `Hard shutdown`, `Power-cycle` occurs; otherwise it is the name of the first pattern in that priority order that occurs |
| UcsText.DetermineEventNames | lib/fluent/plugin/filter_process_ucs_syslog.rb:49-56 | an event is one of `Boot`, `Soft Shutdown`, `Hard Shutdown`, `Restart` |
| UcsText.PowerOnWins | lib/fluent/plugin/filter_process_ucs_syslog.rb:49-50 | any message containing `Power-on` is a `Boot`, whatever else it contains |
| UcsText.RunLength | lib/fluent/plugin/filter_process_ucs_syslog.rb:16 | the greedy `(\w+)` run: every character in it is in the class and the next one is not |
| UcsText.CaptureAtIsMatch | lib/fluent/plugin/filter_process_ucs_syslog.rb:16 | trying `open(class+)close` at one index gives `v` iff the regex matches there with group 1 equal to `v` |
| UcsText.CaptureIsLeftmost | lib/fluent/plugin/filter_process_ucs_syslog.rb:65 | `s[regex, 1]` is `v` iff `v` is group 1 of the leftmost match; it is nil iff the regex matches nowhere; a capture is non-empty and within the class |
| UcsText.DetermineStageSpec | lib/fluent/plugin/filter_process_ucs_syslog.rb:61-66 | the stage is nil iff no `[FSM:\w+]` occurs; otherwise it is the downcased word of the leftmost occurrence, non-empty, all word characters, and unchanged by a further downcase |
| UcsText.MatchBladeDnSpec | lib/fluent/plugin/filter_process_ucs_syslog.rb:36-40 | the dn is absent iff no `sys/chassis-D/blade-D` occurs; otherwise it is the leftmost such substring and has that exact shape |
| UcsText.TwoDigitBladeIsTruncated | lib/fluent/plugin/filter_process_ucs_syslog.rb:15 | `sys/chassis-4/blade-17` yields the dn `sys/chassis-4/blade-1` |
| UcsText.TwoDigitChassisIsMissed | lib/fluent/plugin/filter_process_ucs_syslog.rb:15 | `sys/chassis-14/blade-7` yields no dn |
| UcsApi.BodyKinds | lib/fluent/plugin/filter_process_ucs_syslog.rb:76-97 | a login body starts `<aaaLogin ` and a query body starts `<configResolveDn `, and neither starts like the other |
| UcsApi.OutCookieSpec | lib/fluent/plugin/filter_process_ucs_syslog.rb:99 | the login token is `""` iff no `outCookie="[\d\w/-]+"` occurs; otherwise it is the leftmost such value |
| UcsApi.AssignedToDnSpec | lib/fluent/plugin/filter_process_ucs_syslog.rb:78 | the profile is nil iff no `assignedToDn="[\d\w/-]+"` occurs; otherwise it is the leftmost such value, non-empty |
| UcsApi.Token | lib/fluent/plugin/filter_process_ucs_syslog.rb:89-106 | afterwards the token file holds the returned token; a cached token is returned with no call; otherwise exactly one `aaaLogin` call with `inName = domain\username` is made and its `outCookie` is returned |
| UcsApi.TokenIdempotent | lib/fluent/plugin/filter_process_ucs_syslog.rb:90-93 | asking for the token a second time returns the same token and calls nothing |
| UcsApi.TokenShape | lib/fluent/plugin/filter_process_ucs_syslog.rb:99-105 | a token obtained by login is made of `[\d\w/-]` characters (`""` when the response has no cookie) |
| UcsApi.ServiceProfileHistory | lib/fluent/plugin/filter_process_ucs_syslog.rb:74-83 | the lookup only appends calls, all to the given host |
| UcsApi.ServiceProfileBounded | lib/fluent/plugin/filter_process_ucs_syslog.rb:68-83 | at most `6 - retries` queries (five from `retries == 1`) and twice that many calls; a `""` result means every attempt was used |
| UcsApi.ServiceProfileLogins | lib/fluent/plugin/filter_process_ucs_syslog.rb:69-83 | past `retries > 5` it returns `""` with nothing called; otherwise it logs in once per query, except for a first query served from the cache, and leaves the token file absent iff the result is `""` |
| UcsApi.ServiceProfileResult | lib/fluent/plugin/filter_process_ucs_syslog.rb:76-86 | the result is `""` or the `assignedToDn` value of the last response, the last call being a query for `dn` |
| UcsApi.ServiceProfileQueryCookies | lib/fluent/plugin/filter_process_ucs_syslog.rb:74-77 | every query carries the token `getToken` just returned: the cached token on a first attempt served from the token file, otherwise the `outCookie` of the response to the `aaaLogin` call immediately before it |
| UcsApi.ServiceProfileLoginOrder | lib/fluent/plugin/filter_process_ucs_syslog.rb:95-98 | every login in the lookup is the `aaaLogin` body for the configured credentials, sent to the host, and is immediately followed by a query |
| UcsApi.ServiceProfileEarlierEmpty | lib/fluent/plugin/filter_process_ucs_syslog.rb:78-84 | every query response before the last, and every one when the result is `""`, had no `assignedToDn` value |
| UcsPlugin.MachineIdInjective | lib/fluent/plugin/filter_process_ucs_syslog.rb:43 | within one `coloregion` the machine id determines the service profile |
| UcsPlugin.Filtered | lib/fluent/plugin/filter_process_ucs_syslog.rb:22-45 | every key other than `event`, `stage`, `machineId` (so `message` too) keeps its value, no other key is added, and a record without `message` comes back unchanged with no call |
| UcsPlugin.FilteredDetectors | lib/fluent/plugin/filter_process_ucs_syslog.rb:26-34 | `event`/`stage` are set to the detector's value when it has one and are otherwise left as they were, present or absent |
| UcsPlugin.FilteredNoBlade | lib/fluent/plugin/filter_process_ucs_syslog.rb:36-38 | with no blade dn, no call is made and `machineId` is left as it was |
| UcsPlugin.FilteredMachineId | lib/fluent/plugin/filter_process_ucs_syslog.rb:40-43 | with a blade dn, `machineId` is `Cisco_UCS:<coloregion>:` plus `getServiceProfile(host, leftmost dn, 1)` on the `ucsHostNameKey` host, where the profile is `""` or `[\d\w/-]` characters, using at most five queries and ten calls |
| UcsPlugin.HostIsRecordsOwn | lib/fluent/plugin/filter_process_ucs_syslog.rb:42 | the host, read after the `event`/`stage` writes, is the record's own value unless `ucsHostNameKey` is `event` or `stage` |
| UcsPlugin.ProcessUcsSyslog.constructor | lib/fluent/plugin/filter_process_ucs_syslog.rb:7-13 | the plugin starts with its configuration, the given token file and no calls made |
| UcsPlugin.ProcessUcsSyslog.CallUcsApi | lib/fluent/plugin/filter_process_ucs_syslog.rb:108-120 | one exchange: the call is logged, the response is the oracle's answer, and the token file is untouched |
| UcsPlugin.ProcessUcsSyslog.GetToken | lib/fluent/plugin/filter_process_ucs_syslog.rb:89-106 | the new token file and call log are those of `UcsApi.Token`; a cached token is returned with no call |
| UcsPlugin.ProcessUcsSyslog.GetServiceProfile | lib/fluent/plugin/filter_process_ucs_syslog.rb:68-87 | result, token file and call log are those of `UcsApi.ServiceProfile`; the recursion decreases `6 - retries` |
| UcsPlugin.ProcessUcsSyslog.Filter | lib/fluent/plugin/filter_process_ucs_syslog.rb:22-45 | updates the record in place and returns that same record; the new fields and state are those of `UcsPlugin.Filtered` |

## Left out

- `callUcsApi`'s HTTPS exchange (TLS with verification off, `Net::HTTP`): the controller is the `Api` oracle over the call history.
- Exceptions from `callUcsApi` are not modelled. These are connection or TLS errors, a hang, and a host that `URI.parse` rejects. In Ruby each escapes `filter` after `event`/`stage` were already written in place, and may leave behind a token file the login just wrote. The oracle is total, so every call answers.
- Nil response bodies are not modelled. At the two extractors, `nil[...]` would raise with the same partial effects. The oracle always returns a string.
- `getPassword`'s file read: the password is a constant field of `Credentials`.
- The file system behind `/tmp/token`: modelled as one `Option<string>` field. Exists, read, write and delete map to `Some`/`None`. Write failures and races between processes sharing the file are not modelled.
- The token slot shared across plugin instances is not modelled. `@@tokenFile` is a class variable with a fixed path, so every instance in the process (and every process on the host) shares one slot, whatever its credentials. The model gives each `ProcessUcsSyslog` object its own `tokenFile`, so one instance's login or delete is not seen by another.
- Logging (`log.error`, `log.info`), plugin registration, `config_param` and `configure`: framework glue with no effect on the record.
- Full regular-expression semantics: only the four patterns the filter uses are modelled, as string predicates and leftmost-match extractors.
- Unicode case mapping in `downcase`: only ASCII is lower-cased. A captured stage consists of `\w` characters, which are ASCII in Ruby.
- Record values of non-string types: record values are strings.
- Behaviour the test file expects but this revision of the code does not have: `type`/`severity`/`mnemonic`/`device` fields, username redaction, an `error` field, `""` defaults, lower-case event names, internal-restart correlation, the fault prober, and token refresh or expiry.
