# yummc-bot: permission gate and server watcher in Dafny

This project models the decision logic of the YumMC Discord bot (`index.js`):

- **Broadcast permission** (`hasGuiPermission`). The policy is read from the environment:
  - `REQUIRE_ADMIN_FOR_GUI` turns on admin-only mode, but only when its value is exactly `"true"`.
  - The allow-list comes from `ALLOWED_ROLE_IDS` split on commas. If that is unset or empty, it is the single `ALLOWED_ROLE_ID`, provided that one is set and non-empty. If neither is set to a non-empty value, the list is empty.
  - A caller is decided by their Administrator bit and the role ids they hold.
  - The model also covers the refusal text that the open-form button and the prefix and slash `gui` commands show.
- **Broadcast form submission** (`handleModalSubmit`). The submission is checked for the right form id. Then the permission is checked again. Content that is empty or only whitespace is rejected. The posted title is the caller's own title behind a 📌 pin, or a default chosen by the admin flag.
- **Server watcher** (`checkServer`). It keeps one mutable `lastStatus` (`null`, `"online"` or `"offline"`). On every tick:
  - If the alert channel cannot be fetched, the tick stops.
  - Otherwise it probes the Minecraft server and refreshes the bot's presence.
  - It posts an alert only when the observed status differs from `lastStatus`.

Modules:

- `JsText` models the JavaScript built-ins the code relies on: `trim` with the ECMAScript whitespace set, `split` on one character, and `join`.
- `GuiPermission` models the policy, its loading from the environment, `hasGuiPermission` and the refusal message.
- `Broadcast` models the form submission.
- `StatusWatcher` holds the watcher. Its `Watcher` class carries `lastStatus`, the presence, and ghost logs of the ticks seen and the alerts sent. `Tick` is proved against the fold functions `FinalStatus` and `Emitted`, and the lemmas about whole tick sequences are stated over those functions.

External inputs are passed in as parameters:

- the environment, as an `Env` value;
- the guild's role-name cache, as a `map` from role id to name;
- whether the alert channel could be fetched, as a `bool`;
- the outcome of the status probe, as a `Probe` value.

Details of the code that the model keeps:

- The refusal text is not identical in its three copies. The open-form button says "tính năng này" (this feature), and the two commands say "lệnh này" (this command). `Surface` carries the difference.
- The allow-list is an ordered list. Its order shows in the refusal message.
- A resolved role name that is empty is also shown as `Role(<id>)`, because of `name || Role(id)`.
- Blank content gets an error reply. It does not re-open the form.

## Model

| member | source | states |
|---|---|---|
| `JsText.Trim` | index.js:275 | `s.trim()` is a slice `s[a..b]` with only ECMAScript whitespace cut off before `a` and after `b`; it is empty exactly when every character of `s` is whitespace, and otherwise neither starts nor ends with whitespace |
| `JsText.Split` | index.js:39 | `split(',')` yields at least one piece and no piece contains the separator |
| `JsText.JoinSplit` | index.js:39 | joining the pieces of a split with the same separator gives back the original string |
| `JsText.SplitJoin` | index.js:39 | splitting a join of separator-free pieces gives back the pieces |
| `JsText.Join` | index.js:209 | `join` of no elements is empty; a non-empty join starts with the first element |
| `JsText.JoinEndsWithLast` | index.js:209 | a non-empty join ends with the last element |
| `JsText.JoinIncludesEach` | index.js:206-209 | every element of a joined list occurs in the joined string |
| `GuiPermission.AllowedRoleIds` | index.js:38-40 | the allow-list is empty iff neither role variable is set to a non-empty value; when `ALLOWED_ROLE_IDS` is set, the list is its comma-separated ids (joining them back gives the setting, and no id contains a comma); otherwise it is `[ALLOWED_ROLE_ID]` |
| `GuiPermission.OnlyExactTrueLocksToAdmins` | index.js:41 | with any `REQUIRE_ADMIN_FOR_GUI` value other than exactly `"true"`, a caller has access iff they are an administrator or hold a configured role id |
| `GuiPermission.LoadPolicy` | index.js:38-41 | the loaded allow-list is `AllowedRoleIds`; for every caller, access holds iff they are an administrator, or `REQUIRE_ADMIN_FOR_GUI` is not exactly `"true"` and they hold an id from the allow-list |
| `GuiPermission.AnyAllowedHeld` | index.js:57 | `allowed.some(id => roles.has(id))` holds iff some configured id is among the caller's roles |
| `GuiPermission.HasGuiPermission` | index.js:44-62 | admin-only: access equals the admin flag whatever the roles; otherwise an admin always passes; a non-admin with a non-empty list passes iff holding a listed id; with an empty list only admins pass (fail-closed); overall: admin, or (not admin-only and holding a listed id) |
| `GuiPermission.PermissionMonotoneInRoles` | index.js:56-58 | gaining roles never removes access |
| `GuiPermission.PermissionIgnoresListOrder` | index.js:56-58 | access depends only on which ids are configured, not their order or repetition |
| `GuiPermission.UnconfiguredIsAdminOnly` | index.js:38-61 | with no role setting in the environment, only administrators pass |
| `GuiPermission.RoleLabel` | index.js:207 | a role's label is its cached name when present and non-empty, else `Role(<id>)`; never empty |
| `GuiPermission.RoleLabels` | index.js:206-208 | one label per configured id, in configured order |
| `GuiPermission.DropEmpty` | index.js:208 | `filter(name => name)` leaves no empty string and keeps every non-empty string as often as it occurs |
| `GuiPermission.DropEmptyKeepsLabels` | index.js:208 | the `filter(name => name)` step removes nothing from the labels |
| `GuiPermission.DenialMessage` | index.js:200-212 | admin-only gives the admin message; no list gives the generic message |
| `GuiPermission.DenialListsRoles` | index.js:204-211 | with a list (not admin-only), the message is the prefix, every label joined by ", " in order, and the closing `**`; each configured role's label appears in it, unresolved ids included |
| `GuiPermission.GuiGate` | index.js:750-767 | a `gui` command goes ahead iff `hasGuiPermission` holds; otherwise it replies with that surface's refusal message, which is never empty |
| `GuiPermission.RefusalNamesTheRole` | index.js:755-762 | with allow-list `["R1"]` (named "VIP") a non-admin holding only R2 is refused with a message naming "VIP" |
| `Broadcast.IsBlank` | index.js:275 | the content counts as empty (missing, or trimming to nothing) iff every character is whitespace |
| `Broadcast.PostTitle` | index.js:297-301 | the title starts with 📌 iff the caller's title has a non-whitespace character; a blank title gives one of the two defaults |
| `Broadcast.PostTitleOrigin` | index.js:297-301 | a title with any non-whitespace character becomes `"📌 " + title` verbatim; a blank one gives the admin or member default; the title starts with 📌 iff the caller supplied a non-blank title |
| `Broadcast.HandleModalSubmit` | index.js:259-301 | another form is ignored; no permission is refused; a post happens iff the caller is permitted and the content is not all whitespace; the post carries the content unchanged, the caller's admin flag and the chosen title |
| `Broadcast.BlankContentNeverSent` | index.js:275-280 | whitespace-only content is never posted, for any caller and title |
| `StatusWatcher.StepAlerts` | index.js:142-177 | one tick emits at most one alert, exactly when it probed and the observed status differs from the last, and the alert describes the probe |
| `StatusWatcher.RunSnoc` | index.js:125-193 | extending a run by one tick appends that tick's alerts computed from the run's final status |
| `StatusWatcher.EmittedAlternate` | index.js:142-177 | alerts alternate online/offline; the first differs from the starting status; the last equals the final status; with no alert the status is unchanged |
| `StatusWatcher.EmittedAtMostOnePerTick` | index.js:142-177 | a run never emits more alerts than it has ticks |
| `StatusWatcher.ProbedOnly` | index.js:126-129 | keeps only ticks that reached the probe, each such tick as often as it occurs; a run where every tick reached the probe is kept whole |
| `StatusWatcher.ChannelMissingIsTransparent` | index.js:126-129 | ticks whose channel fetch failed change neither the alerts nor the final status |
| `StatusWatcher.SteadyObservationIsSilent` | index.js:142-177 | repeating the status the watcher already holds emits nothing and keeps the status |
| `StatusWatcher.FirstProbeAlwaysAlerts` | index.js:35 | from the initial `null` the first probe alerts, and further probes with the same outcome add nothing |
| `StatusWatcher.EdgeTriggeredExample` | index.js:142-177 | success, success, failure, failure, success emits online, offline, online, at ticks 1, 3 and 5 |
| `StatusWatcher.ActivityFor` | index.js:137-174 | a probed tick sets "Online: n/m" with the probe's counts iff the server is reachable, else "Server OFFLINE"; never the ready-time presence |
| `StatusWatcher.Watcher.constructor` | index.js:35 | the watcher starts with no status, the ready-time presence, and no alerts |
| `StatusWatcher.Watcher.Tick` | index.js:125-193 | an unfetched channel changes nothing; otherwise the presence follows the probe, `lastStatus` becomes the observed status, an alert is sent iff the status changed, and the state stays the fold of all ticks since start |

## Left out

- The Discord client, the slash-command registration, replies, modals, buttons, reactions and every embed field are left out. They are library calls or presentation. A post is reduced to its title, its content and its admin styling.
- The `minecraft-server-util` probe is an input: `Reachable(online, max, version)` or `Unreachable`. `Watcher.Tick` treats the probe as the only thing that can fail in the `try`. Either embed could throw after `lastStatus` is set, for example in `setImage(process.env.SERVER_BANNER)`. If the online embed threw after `lastStatus = "online"`, the code would run the offline branch in the same tick. If the offline embed threw after `lastStatus = "offline"`, no alert would go out and the error would escape `checkServer`, while `Watcher.Tick` still records `ServerOffline` as sent. The model does not capture either late failure.
- The `setInterval` timing, `CHECK_INTERVAL`, async interleaving and unawaited `channel.send` promises are left out. Each tick is atomic, and a send is recorded as an alert whether or not the send later fails.
- The numbers in the presence text "Online: n/m" are not formatted into strings. The presence is kept as a value.
- The `/online` and `online` commands are left out. They use the same probe but never touch `lastStatus`.
- A caller that is not a guild member is left out. In a direct message `message.member` is null, and the bot does receive direct messages with an empty command prefix. There `gui` and `help` throw when they read `member.permissions`. Only the unhandled-rejection logger sees the error, and no reply is sent. The model always has a `Member`.
- `help` only changes display text according to `hasGuiPermission`, and it is left out.
- The ping arithmetic, `toLocaleString`, logging, `process.exit` on a failed login, and the `ip`, `info`, `owner`, `getid` and `thanhtoan` commands are left out. They are static content or depend on the clock or locale.
- The modal title and the slash-command description that depend on `REQUIRE_ADMIN_FOR_GUI` are presentation, and they are left out.
- Strings are sequences of Unicode scalar values. JavaScript's UTF-16 code units, including lone surrogates, are not modelled.
