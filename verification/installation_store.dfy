/** `GCPStorageInstallationStore` (libs/google_storage.py): where the Slack installation
    store puts bots and installations in a Cloud Storage bucket, and how it finds a bot
    again. The bucket is a map from blob name to blob. Installation and bot objects are
    opaque apart from the ids the blob names are built from; a blob holds the object that
    was serialised into it, or text that does not read back as a bot. */
module InstallationStore {
  import opened Wrappers

  datatype Bot = Bot(enterpriseId: Option<string>, teamId: Option<string>, details: string)

  datatype Installation = Installation(
    enterpriseId: Option<string>, teamId: Option<string>, userId: Option<string>,
    botDetails: string, details: string)

  /** `installation.to_bot()`: the bot of an installation, with the same ids. */
  function ToBot(i: Installation): (b: Bot)
    ensures b.enterpriseId == i.enterpriseId && b.teamId == i.teamId
  {
    Bot(i.enterpriseId, i.teamId, i.botDetails)
  }

  datatype Blob = BotBlob(bot: Bot) | InstallationBlob(installation: Installation) | OtherBlob(text: string)

  datatype Store = Store(clientId: string, historicalDataEnabled: bool, bucket: map<string, Blob>)

  const NoneId: string := "none"

  /** Python's `x or "none"` on an optional id: `None` and `""` both become `"none"`. */
  function OrNone(x: Option<string>): (r: string)
    ensures x.None? || x.value == "" ==> r == NoneId
    ensures x.Some? && x.value != "" ==> r == x.value
    ensures r != ""
  {
    if x.None? || x.value == "" then NoneId else x.value
  }

  /** `f"{self.client_id}/{e_id}-{t_id}"`. */
  function WorkspacePath(clientId: string, e: Option<string>, t: Option<string>): (p: string)
    ensures p == clientId + "/" + OrNone(e) + "-" + OrNone(t)
  {
    clientId + "/" + OrNone(e) + "-" + OrNone(t)
  }

  function BotKey(s: Store, e: Option<string>, t: Option<string>): string {
    WorkspacePath(s.clientId, e, t) + "/bot-latest"
  }

  function InstallerKey(s: Store, e: Option<string>, t: Option<string>): string {
    WorkspacePath(s.clientId, e, t) + "/installer-latest"
  }

  function InstallerUserKey(s: Store, e: Option<string>, t: Option<string>, u: Option<string>): string {
    WorkspacePath(s.clientId, e, t) + "/installer-" + OrNone(u) + "-latest"
  }

  /** The three blob names differ, because their endings after the workspace path do. */
  lemma KeysDistinct(s: Store, e: Option<string>, t: Option<string>, u: Option<string>)
    ensures BotKey(s, e, t) != InstallerKey(s, e, t)
    ensures BotKey(s, e, t) != InstallerUserKey(s, e, t, u)
    ensures InstallerKey(s, e, t) != InstallerUserKey(s, e, t, u)
  {
    var w := WorkspacePath(s.clientId, e, t);
    var tail := "/installer-" + OrNone(u) + "-latest";
    assert InstallerUserKey(s, e, t, u) == w + tail;
    SecondAfter(w, "/bot-latest");
    SecondAfter(w, "/installer-latest");
    SecondAfter(w, tail);
    assert |InstallerKey(s, e, t)| < |w + tail|;
  }

  /** The character after the first of an ending. */
  lemma SecondAfter(w: string, tail: string)
    requires |tail| > 1
    ensures (w + tail)[|w| + 1] == tail[1]
  {
  }

  /** `save_bot`: one blob, `{workspace}/bot-latest`, holding the bot. Both branches on
      `historical_data_enabled` write the same blob. */
  function SaveBot(s: Store, b: Bot): (s': Store)
    ensures s'.bucket == s.bucket[BotKey(s, b.enterpriseId, b.teamId) := BotBlob(b)]
    ensures s'.clientId == s.clientId && s'.historicalDataEnabled == s.historicalDataEnabled
  {
    var key := BotKey(s, b.enterpriseId, b.teamId);
    if s.historicalDataEnabled then s.(bucket := s.bucket[key := BotBlob(b)])
    else s.(bucket := s.bucket[key := BotBlob(b)])
  }

  /** `save`: the installation's bot through `save_bot`, then the installation under
      `installer-latest` and under `installer-{user}-latest`, in the same workspace. */
  function Save(s: Store, i: Installation): (s': Store)
    ensures s'.bucket.Keys == s.bucket.Keys + {BotKey(s, i.enterpriseId, i.teamId),
              InstallerKey(s, i.enterpriseId, i.teamId), InstallerUserKey(s, i.enterpriseId, i.teamId, i.userId)}
    ensures s'.bucket[BotKey(s, i.enterpriseId, i.teamId)] == BotBlob(ToBot(i))
    ensures s'.bucket[InstallerKey(s, i.enterpriseId, i.teamId)] == InstallationBlob(i)
    ensures s'.bucket[InstallerUserKey(s, i.enterpriseId, i.teamId, i.userId)] == InstallationBlob(i)
    ensures forall k :: k in s.bucket && k !in {BotKey(s, i.enterpriseId, i.teamId),
              InstallerKey(s, i.enterpriseId, i.teamId), InstallerUserKey(s, i.enterpriseId, i.teamId, i.userId)}
              ==> s'.bucket[k] == s.bucket[k]
  {
    var withBot := SaveBot(s, ToBot(i));
    var installer := InstallerKey(s, i.enterpriseId, i.teamId);
    var perUser := InstallerUserKey(s, i.enterpriseId, i.teamId, i.userId);
    KeysDistinct(s, i.enterpriseId, i.teamId, i.userId);
    if s.historicalDataEnabled then
      withBot.(bucket := withBot.bucket[installer := InstallationBlob(i)][perUser := InstallationBlob(i)])
    else
      withBot.(bucket := withBot.bucket[installer := InstallationBlob(i)][perUser := InstallationBlob(i)])
  }

  /** `find_bot`: an enterprise-wide install is looked up under team `"none"`; a blob that
      is missing or does not hold a bot gives `None` instead of an error. */
  function FindBot(s: Store, e: Option<string>, t: Option<string>, isEnterpriseInstall: bool): (r: Option<Bot>)
    ensures var key := BotKey(s, e, if isEnterpriseInstall then None else t);
            r.Some? <==> key in s.bucket && s.bucket[key].BotBlob?
    ensures var key := BotKey(s, e, if isEnterpriseInstall then None else t);
            r.Some? ==> r.value == s.bucket[key].bot
  {
    var team := if isEnterpriseInstall then None else t;
    var key := BotKey(s, e, team);
    if key in s.bucket && s.bucket[key].BotBlob? then Some(s.bucket[key].bot) else None
  }

  /** `async_save`, `async_save_bot` and `async_find_bot` call their synchronous versions. */
  function AsyncSave(s: Store, i: Installation): (s': Store)
    ensures s' == Save(s, i)
  {
    Save(s, i)
  }

  function AsyncSaveBot(s: Store, b: Bot): (s': Store)
    ensures s' == SaveBot(s, b)
  {
    SaveBot(s, b)
  }

  function AsyncFindBot(s: Store, e: Option<string>, t: Option<string>, isEnterpriseInstall: bool): (r: Option<Bot>)
    ensures r == FindBot(s, e, t, isEnterpriseInstall)
  {
    FindBot(s, e, t, isEnterpriseInstall)
  }

  /** A bot saved is found again under the same ids. */
  lemma SaveFindRoundTrip(s: Store, b: Bot)
    ensures FindBot(SaveBot(s, b), b.enterpriseId, b.teamId, false) == Some(b)
  {
  }

  /** A bot of an installation is found under the installation's ids once it is saved. */
  lemma SaveInstallationFindsBot(s: Store, i: Installation)
    ensures FindBot(Save(s, i), i.enterpriseId, i.teamId, false) == Some(ToBot(i))
  {
  }

  /** An enterprise-wide install is found whatever team is asked for, when the bot was
      saved without a team. */
  lemma EnterpriseIgnoresTeam(s: Store, b: Bot, t: Option<string>)
    requires b.teamId.None? || b.teamId.value == ""
    ensures FindBot(SaveBot(s, b), b.enterpriseId, t, true) == Some(b)
  {
    assert OrNone(b.teamId) == OrNone(None);
  }

  /** `None` and the empty id name the same workspace. */
  lemma EmptyIsNone(clientId: string, e: Option<string>, t: Option<string>)
    ensures WorkspacePath(clientId, Some(""), t) == WorkspacePath(clientId, None, t)
    ensures WorkspacePath(clientId, e, Some("")) == WorkspacePath(clientId, e, None)
  {
  }

  /** Whether historical data is enabled does not change what `save_bot` writes. */
  lemma HistoryFlagIrrelevant(s: Store, b: Bot)
    ensures SaveBot(s.(historicalDataEnabled := true), b).bucket
         == SaveBot(s.(historicalDataEnabled := false), b).bucket
  {
  }

  /** Nothing saved under a workspace: no bot. */
  lemma MissingIsNone(s: Store, e: Option<string>, t: Option<string>)
    requires BotKey(s, e, t) !in s.bucket
    ensures FindBot(s, e, t, false) == None
  {
  }
}
