/** The settings of users: refresh tokens, webhooks and others, read and written through a cache. */
module SettingStore {
  import opened Wrappers
  import opened Strings
  import opened UserStore
  import C = Cache

  datatype Kind = Unspecified | General | Shortcuts | Webhooks | RefreshTokens | PersonalAccessTokens

  function KindName(kind: Kind): string
  {
    match kind
    case Unspecified => "KEY_UNSPECIFIED"
    case General => "GENERAL"
    case Shortcuts => "SHORTCUTS"
    case Webhooks => "WEBHOOKS"
    case RefreshTokens => "REFRESH_TOKENS"
    case PersonalAccessTokens => "PERSONAL_ACCESS_TOKENS"
  }

  datatype Token = Token(id: string, info: string)

  datatype Webhook = Webhook(id: string, url: string)

  datatype Value = TokensValue(tokens: seq<Token>) | HooksValue(hooks: seq<Webhook>) | OtherValue(text: string)

  datatype Setting = Setting(user: ID, kind: Kind, value: Value)

  /** A value has the type its key asks for; only these can be written. */
  predicate IsTyped(s: Setting)
  {
    match s.kind
    case Unspecified => false
    case RefreshTokens => s.value.TokensValue?
    case Webhooks => s.value.HooksValue?
    case _ => s.value.OtherValue?
  }

  type Settings = map<(ID, Kind), Setting>

  // ----- Keys

  function PrintInt(n: int): string { if n < 0 then "-" + PrintNat(-n) else PrintNat(n) }

  function SettingKey(user: ID, kind: Kind): string { PrintInt(user) + "-" + KindName(kind) }

  /** The keys as the database names the kinds. */
  lemma KnownKeys(user: ID)
    ensures SettingKey(user, Unspecified) == PrintInt(user) + "-" + "KEY_UNSPECIFIED"
    ensures SettingKey(user, General) == PrintInt(user) + "-" + "GENERAL"
    ensures SettingKey(user, Shortcuts) == PrintInt(user) + "-" + "SHORTCUTS"
    ensures SettingKey(user, Webhooks) == PrintInt(user) + "-" + "WEBHOOKS"
    ensures SettingKey(user, RefreshTokens) == PrintInt(user) + "-" + "REFRESH_TOKENS"
    ensures SettingKey(user, PersonalAccessTokens) == PrintInt(user) + "-" + "PERSONAL_ACCESS_TOKENS"
    ensures PrintInt(0) == "0" && PrintInt(7) == "7" && PrintInt(-7) == "-7" && PrintInt(25) == "25"
  {
    hide SettingKey, PrintInt;
    KeyNames(user);
    KnownNumbers();
  }

  lemma KeyNames(user: ID)
    ensures SettingKey(user, Unspecified) == PrintInt(user) + "-" + "KEY_UNSPECIFIED"
    ensures SettingKey(user, General) == PrintInt(user) + "-" + "GENERAL"
    ensures SettingKey(user, Shortcuts) == PrintInt(user) + "-" + "SHORTCUTS"
    ensures SettingKey(user, Webhooks) == PrintInt(user) + "-" + "WEBHOOKS"
    ensures SettingKey(user, RefreshTokens) == PrintInt(user) + "-" + "REFRESH_TOKENS"
    ensures SettingKey(user, PersonalAccessTokens) == PrintInt(user) + "-" + "PERSONAL_ACCESS_TOKENS"
  {
    hide PrintInt;
  }

  lemma KnownNumbers()
    ensures PrintInt(0) == "0" && PrintInt(7) == "7" && PrintInt(-7) == "-7" && PrintInt(25) == "25"
  {
    assert PrintNat(2) == "2" && PrintNat(7) == "7";
    assert "-" + "7" == "-7" && "2" + "5" == "25";
  }

  lemma KindNamesDiffer(a: Kind, b: Kind)
    requires KindName(a) == KindName(b)
    ensures a == b
  {
    assert |KindName(a)| == |KindName(b)|;
    assert KindName(a)[0] == KindName(b)[0];
  }

  function Magnitude(n: int): nat { if n < 0 then -n else n }

  lemma KeyParts(u: ID, k: Kind)
    ensures var s := SettingKey(u, k);
            && s != "" && (u < 0 <==> s[0] == '-')
            && (if u < 0 then s[1..] else s) == PrintNat(Magnitude(u)) + "-" + KindName(k)
  {
    hide KindName;
    var digits := PrintNat(Magnitude(u));
    assert digits[0] in digits;
    hide PrintNat;
    if u < 0 { assert "-" + digits + "-" + KindName(k) == "-" + (digits + "-" + KindName(k)); }
  }

  /** No two settings share a cache key. */
  lemma SettingKeyIsInjective(u: ID, k: Kind, v: ID, l: Kind)
    requires SettingKey(u, k) == SettingKey(v, l)
    ensures u == v && k == l
  {
    hide SettingKey, KindName, PrintNat;
    KeyParts(u, k);
    KeyParts(v, l);
    SplitsOnce(PrintNat(Magnitude(u)), KindName(k), PrintNat(Magnitude(v)), KindName(l), '-');
    KindNamesDiffer(k, l);
    PrintNatInjective(Magnitude(u), Magnitude(v));
  }

  // ----- Lists

  function FindToken(tokens: seq<Token>, id: string): Option<Token>
  {
    if tokens == [] then None else if tokens[0].id == id then Some(tokens[0]) else FindToken(tokens[1..], id)
  }

  function WithoutToken(tokens: seq<Token>, id: string): seq<Token>
  {
    if tokens == [] then []
    else if tokens[0].id != id then [tokens[0]] + WithoutToken(tokens[1..], id)
    else WithoutToken(tokens[1..], id)
  }

  function FindHook(hooks: seq<Webhook>, id: string): Option<Webhook>
  {
    if hooks == [] then None else if hooks[0].id == id then Some(hooks[0]) else FindHook(hooks[1..], id)
  }

  function ReplaceHooks(hooks: seq<Webhook>, h: Webhook): seq<Webhook>
  {
    if hooks == [] then [] else [if hooks[0].id == h.id then h else hooks[0]] + ReplaceHooks(hooks[1..], h)
  }

  /** The webhook in place of those with its ID, or at the end. */
  function WithHook(hooks: seq<Webhook>, h: Webhook): seq<Webhook>
  {
    if FindHook(hooks, h.id).None? then hooks + [h] else ReplaceHooks(hooks, h)
  }

  function WithoutHook(hooks: seq<Webhook>, id: string): seq<Webhook>
  {
    if hooks == [] then []
    else if hooks[0].id != id then [hooks[0]] + WithoutHook(hooks[1..], id)
    else WithoutHook(hooks[1..], id)
  }

  /** The first webhook with this ID is changed. */
  function ChangeFirstHook(hooks: seq<Webhook>, h: Webhook): seq<Webhook>
  {
    if hooks == [] then []
    else if hooks[0].id == h.id then [h] + hooks[1..]
    else [hooks[0]] + ChangeFirstHook(hooks[1..], h)
  }

  lemma {:induction false} FindAfterRemoval(tokens: seq<Token>, id: string, other: string)
    ensures FindToken(WithoutToken(tokens, id), other) == if other == id then None else FindToken(tokens, other)
  {
    if tokens != [] {
      FindAfterRemoval(tokens[1..], id, other);
      var rest := WithoutToken(tokens[1..], id);
      if tokens[0].id != id { assert ([tokens[0]] + rest)[1..] == rest; }
    }
  }

  lemma {:induction false} FindAfterAdding(tokens: seq<Token>, t: Token, id: string)
    ensures FindToken(tokens + [t], id) ==
            if FindToken(tokens, id).Some? then FindToken(tokens, id) else if t.id == id then Some(t) else None
  {
    if tokens == [] {
      assert tokens + [t] == [t];
    } else {
      assert (tokens + [t])[1..] == tokens[1..] + [t];
      FindAfterAdding(tokens[1..], t, id);
    }
  }

  /** The first token of an ID is found, and None means there is none. */
  lemma {:induction false} FindTokenIsFirst(tokens: seq<Token>, id: string)
    ensures match FindToken(tokens, id)
            case Some(t) =>
              exists k ::
                0 <= k < |tokens| && tokens[k] == t && t.id == id && forall j :: 0 <= j < k ==> tokens[j].id != id
            case None => forall k :: 0 <= k < |tokens| ==> tokens[k].id != id
  {
    if tokens != [] {
      FindTokenIsFirst(tokens[1..], id);
      if tokens[0].id != id && FindToken(tokens, id).Some? {
        var t := FindToken(tokens, id).value;
        var k :| 0 <= k < |tokens[1..]| && tokens[1..][k] == t && forall j :: 0 <= j < k ==> tokens[1..][j].id != id;
        assert tokens[k + 1] == t;
        forall j | 0 <= j < k + 1 ensures tokens[j].id != id { if j > 0 { assert tokens[1..][j - 1] == tokens[j]; } }
      } else if FindToken(tokens, id).None? {
        forall k | 0 <= k < |tokens| ensures tokens[k].id != id { if k > 0 { assert tokens[1..][k - 1] == tokens[k]; } }
      }
    }
  }

  lemma {:induction false} FindHookIsFirst(hooks: seq<Webhook>, id: string)
    ensures match FindHook(hooks, id)
            case Some(h) =>
              exists k ::
                0 <= k < |hooks| && hooks[k] == h && h.id == id && forall j :: 0 <= j < k ==> hooks[j].id != id
            case None => forall k :: 0 <= k < |hooks| ==> hooks[k].id != id
  {
    if hooks != [] {
      FindHookIsFirst(hooks[1..], id);
      if hooks[0].id != id && FindHook(hooks, id).Some? {
        var h := FindHook(hooks, id).value;
        var k :| 0 <= k < |hooks[1..]| && hooks[1..][k] == h && forall j :: 0 <= j < k ==> hooks[1..][j].id != id;
        assert hooks[k + 1] == h;
        forall j | 0 <= j < k + 1 ensures hooks[j].id != id { if j > 0 { assert hooks[1..][j - 1] == hooks[j]; } }
      } else if FindHook(hooks, id).None? {
        forall k | 0 <= k < |hooks| ensures hooks[k].id != id { if k > 0 { assert hooks[1..][k - 1] == hooks[k]; } }
      }
    }
  }

  /** Changing the first webhook of an ID leaves every other one as before. */
  lemma {:induction false} FindAfterChange(hooks: seq<Webhook>, h: Webhook, id: string)
    ensures FindHook(ChangeFirstHook(hooks, h), id) ==
            if id == h.id && FindHook(hooks, id).Some? then Some(h) else FindHook(hooks, id)
  {
    if hooks != [] {
      FindAfterChange(hooks[1..], h, id);
      if hooks[0].id == h.id {
        assert ([h] + hooks[1..])[1..] == hooks[1..];
      } else {
        assert ([hooks[0]] + ChangeFirstHook(hooks[1..], h))[1..] == ChangeFirstHook(hooks[1..], h);
      }
    }
  }

  lemma {:induction false} FindAfterReplacing(hooks: seq<Webhook>, h: Webhook, id: string)
    ensures FindHook(ReplaceHooks(hooks, h), id) ==
            if id == h.id && FindHook(hooks, id).Some? then Some(h) else FindHook(hooks, id)
  {
    if hooks != [] { FindAfterReplacing(hooks[1..], h, id); }
  }

  lemma {:induction false} FindHookAtEnd(hooks: seq<Webhook>, h: Webhook, id: string)
    ensures FindHook(hooks + [h], id) == if FindHook(hooks, id).Some? then FindHook(hooks, id)
            else if h.id == id then Some(h) else None
  {
    if hooks == [] {
      assert hooks + [h] == [h];
    } else {
      assert (hooks + [h])[1..] == hooks[1..] + [h];
      FindHookAtEnd(hooks[1..], h, id);
    }
  }

  /** An added webhook is found, and every other one as before. */
  lemma FindAfterUpsert(hooks: seq<Webhook>, h: Webhook, id: string)
    ensures FindHook(WithHook(hooks, h), id) == if id == h.id then Some(h) else FindHook(hooks, id)
  {
    FindAfterReplacing(hooks, h, id);
    FindHookAtEnd(hooks, h, id);
  }

  lemma {:induction false} FindAfterHookRemoval(hooks: seq<Webhook>, id: string, other: string)
    ensures FindHook(WithoutHook(hooks, id), other) == if other == id then None else FindHook(hooks, other)
  {
    if hooks != [] {
      FindAfterHookRemoval(hooks[1..], id, other);
      var rest := WithoutHook(hooks[1..], id);
      if hooks[0].id != id { assert ([hooks[0]] + rest)[1..] == rest; }
    }
  }

  /** Changing the first webhook in place changes the list exactly when there is one and it differs. */
  lemma {:induction false} ChangeFirstChanges(hooks: seq<Webhook>, h: Webhook)
    ensures ChangeFirstHook(hooks, h) != hooks <==> FindHook(hooks, h.id).Some? && FindHook(hooks, h.id) != Some(h)
    ensures FindHook(ChangeFirstHook(hooks, h), h.id) == if FindHook(hooks, h.id).Some? then Some(h) else None
  {
    if hooks != [] {
      ChangeFirstChanges(hooks[1..], h);
      if hooks[0].id == h.id {
        assert ([h] + hooks[1..])[0] == h;
        assert hooks == [hooks[0]] + hooks[1..];
      } else {
        var changed := ChangeFirstHook(hooks, h);
        assert changed[1..] == ChangeFirstHook(hooks[1..], h);
        assert hooks == [hooks[0]] + hooks[1..];
      }
    }
  }

  // ----- The store

  function TokensOf(settings: Settings, user: ID): seq<Token>
  {
    var key := (user, RefreshTokens);
    if key in settings && settings[key].value.TokensValue? then settings[key].value.tokens else []
  }

  function HooksOf(settings: Settings, user: ID): seq<Webhook>
  {
    var key := (user, Webhooks);
    if key in settings && settings[key].value.HooksValue? then settings[key].value.hooks else []
  }

  function Written(settings: Settings, s: Setting): Settings { settings[(s.user, s.kind) := s] }

  predicate WellTyped(settings: Settings)
  {
    forall key :: key in settings ==> key == (settings[key].user, settings[key].kind) && IsTyped(settings[key])
  }

  /** The setting is the stored one, and the key its own. */
  predicate IsStored(key: string, s: Setting, settings: Settings)
  {
    key == SettingKey(s.user, s.kind) && (s.user, s.kind) in settings && settings[(s.user, s.kind)] == s
  }

  /** Every cached setting is the stored one, under its own key. */
  ghost predicate SettingsCoherent(data: map<string, C.Item<Setting>>, settings: Settings)
  {
    forall k :: k in data ==> IsStored(k, data[k].value, settings)
  }

  ghost predicate CoherentBut(data: map<string, C.Item<Setting>>, settings: Settings, key: string)
  {
    forall k :: k in data && k != key ==> IsStored(k, data[k].value, settings)
  }

  lemma CoherentWithout(data: map<string, C.Item<Setting>>, settings: Settings, key: string)
    requires SettingsCoherent(data, settings)
    ensures SettingsCoherent(data - {key}, settings) && CoherentBut(data, settings, key)
  {
    hide IsStored;
  }

  /** Writing a setting leaves the entries of all others as they should be. */
  lemma WriteKeepsOthers(data: map<string, C.Item<Setting>>, settings: Settings, s: Setting)
    requires CoherentBut(data, settings, SettingKey(s.user, s.kind))
    ensures CoherentBut(data, Written(settings, s), SettingKey(s.user, s.kind))
  {
    hide SettingKey;
  }

  /** Caching a stored setting mends the entry of its key. */
  lemma RememberMends(before: map<string, C.Item<Setting>>, after: map<string, C.Item<Setting>>, settings: Settings,
          key: string)
    requires CoherentBut(before, settings, key)
    requires forall k :: k in after && k != key ==> k in before && after[k] == before[k]
    requires key in after ==> IsStored(key, after[key].value, settings)
    ensures SettingsCoherent(after, settings)
  {
    hide IsStored;
  }

  /** An entry under the key of a setting is that setting. */
  lemma OwnEntry(data: map<string, C.Item<Setting>>, settings: Settings, user: ID, kind: Kind)
    requires SettingsCoherent(data, settings)
    ensures SettingKey(user, kind) in data ==>
              (user, kind) in settings && data[SettingKey(user, kind)].value == settings[(user, kind)]
  {
    var key := SettingKey(user, kind);
    if key in data {
      hide SettingKey;
      SettingKeyIsInjective(data[key].value.user, data[key].value.kind, user, kind);
    }
  }

  /** An entry changed in place is stale unless it is what is stored. */
  lemma ChangedInPlace(data: map<string, C.Item<Setting>>, settings: Settings, s: Setting, expiration: int)
    requires SettingsCoherent(data, settings)
    ensures var key := SettingKey(s.user, s.kind);
            var changed := data[key := C.Item(s, expiration)];
            && CoherentBut(changed, settings, key)
            && (SettingsCoherent(changed, settings) <==> IsStored(key, s, settings))
  {
    hide IsStored;
    var key := SettingKey(s.user, s.kind);
    var changed := data[key := C.Item(s, expiration)];
    assert changed[key].value == s && key in changed;
  }

  /** The change of a webhook finds one, and another one than it puts in its place. */
  predicate ChangesHook(settings: Settings, user: ID, hook: Webhook)
  {
    var found := FindHook(HooksOf(settings, user), hook.id);
    found.Some? && found != Some(hook)
  }

  lemma ChangedIsStored(settings: Settings, user: ID, hook: Webhook)
    requires WellTyped(settings)
    ensures ChangesHook(settings, user, hook) <==>
              ChangeFirstHook(HooksOf(settings, user), hook) != HooksOf(settings, user)
    ensures ChangesHook(settings, user, hook) ==> (user, Webhooks) in settings
  {
    hide WellTyped;
    ChangeFirstChanges(HooksOf(settings, user), hook);
  }

  /** The setting that holds a user's webhooks is the stored one exactly when they are the stored ones. */
  lemma StoredHooks(settings: Settings, user: ID, hooks: seq<Webhook>)
    requires WellTyped(settings) && (user, Webhooks) in settings
    ensures IsStored(SettingKey(user, Webhooks), HooksSetting(user, hooks), settings) <==>
              hooks == HooksOf(settings, user)
  {
    hide SettingKey;
    AtOwnKey(settings, (user, Webhooks));
  }

  /** The users the driver lists for a key, in some order. */
  ghost predicate IsListing(order: seq<ID>, settings: Settings, user: Option<ID>, kind: Kind)
  {
    && (forall i :: 0 <= i < |order| ==> (order[i], kind) in settings && (user.Some? ==> order[i] == user.value))
    && (forall i, j :: 0 <= i < |order| && 0 <= j < |order| && order[i] == order[j] ==> i == j)
    && (forall u :: (u, kind) in settings && (user.Some? ==> u == user.value) ==> u in order)
  }

  datatype StoreError = DriverFailed | UnsupportedKey | SeveralFound

  function Listed(order: seq<ID>, settings: Settings, kind: Kind): seq<Setting>
    requires forall i :: 0 <= i < |order| ==> (order[i], kind) in settings
  {
    seq(|order|, i requires 0 <= i < |order| => settings[(order[i], kind)])
  }

  /** The cache answers for this key. */
  predicate IsFresh(data: map<string, C.Item<Setting>>, key: string, now: int)
  {
    key in data && now <= data[key].expiration
  }

  function TokensSetting(user: ID, tokens: seq<Token>): Setting { Setting(user, RefreshTokens, TokensValue(tokens)) }

  function HooksSetting(user: ID, hooks: seq<Webhook>): Setting { Setting(user, Webhooks, HooksValue(hooks)) }

  lemma {:induction false} ReplaceNone(hooks: seq<Webhook>, h: Webhook)
    ensures FindHook(hooks, h.id).None? ==> ReplaceHooks(hooks, h) == hooks
  {
    if hooks != [] { ReplaceNone(hooks[1..], h); }
  }

  method KeepOtherTokens(tokens: seq<Token>, id: string) returns (kept: seq<Token>)
    ensures kept == WithoutToken(tokens, id)
  {
    kept := [];
    for i := 0 to |tokens|
      invariant kept + WithoutToken(tokens[i..], id) == WithoutToken(tokens, id)
    {
      assert tokens[i..][1..] == tokens[i + 1..];
      if tokens[i].id != id {
        kept := kept + [tokens[i]];
      }
    }
    assert tokens[|tokens|..] == [];
  }

  method KeepOtherHooks(hooks: seq<Webhook>, id: string) returns (kept: seq<Webhook>)
    ensures kept == WithoutHook(hooks, id)
  {
    kept := [];
    for i := 0 to |hooks|
      invariant kept + WithoutHook(hooks[i..], id) == WithoutHook(hooks, id)
    {
      assert hooks[i..][1..] == hooks[i + 1..];
      if hooks[i].id != id {
        kept := kept + [hooks[i]];
      }
    }
    assert hooks[|hooks|..] == [];
  }

  method PutHook(hooks: seq<Webhook>, hook: Webhook) returns (updated: seq<Webhook>)
    ensures updated == WithHook(hooks, hook)
  {
    var webhookExists := false;
    updated := [];
    for i := 0 to |hooks|
      invariant updated + ReplaceHooks(hooks[i..], hook) == ReplaceHooks(hooks, hook)
      invariant FindHook(hooks, hook.id).Some? <==> webhookExists || FindHook(hooks[i..], hook.id).Some?
    {
      ReplaceStep(updated, hooks[i..], hook);
      assert hooks[i..][1..] == hooks[i + 1..];
      if hooks[i].id == hook.id {
        updated, webhookExists := updated + [hook], true;
      } else {
        updated := updated + [hooks[i]];
      }
    }
    assert hooks[|hooks|..] == [];
    ReplaceNone(hooks, hook);
    if !webhookExists {
      updated := updated + [hook];
    }
  }

  lemma ReplaceStep(done: seq<Webhook>, rest: seq<Webhook>, h: Webhook)
    requires rest != []
    ensures done + [if rest[0].id == h.id then h else rest[0]] + ReplaceHooks(rest[1..], h) ==
              done + ReplaceHooks(rest, h)
  {
  }

  /** The list a holder sees after changing the first webhook of this ID in place. */
  method ChangeHook(hooks: seq<Webhook>, hook: Webhook) returns (changed: seq<Webhook>)
    ensures changed == ChangeFirstHook(hooks, hook)
  {
    hide ChangeFirstHook;
    changed := hooks;
    ChangeNone(hooks, hook, 0);
    for i := 0 to |hooks|
      invariant changed == hooks && ChangeFirstHook(hooks, hook) == hooks[..i] + ChangeFirstHook(hooks[i..], hook)
    {
      ChangeStep(hooks, hook, i);
      if hooks[i].id == hook.id {
        changed := changed[i := hook];
        return;
      }
    }
    ChangeNone(hooks, hook, |hooks|);
  }

  lemma ChangeStep(hooks: seq<Webhook>, h: Webhook, i: nat)
    requires i < |hooks|
    ensures hooks[..i] + ChangeFirstHook(hooks[i..], h) ==
            if hooks[i].id == h.id then hooks[i := h] else hooks[..i + 1] + ChangeFirstHook(hooks[i + 1..], h)
  {
    assert hooks[i..][0] == hooks[i] && hooks[i..][1..] == hooks[i + 1..];
    assert hooks[..i + 1] == hooks[..i] + [hooks[i]];
  }

  lemma ChangeNone(hooks: seq<Webhook>, h: Webhook, i: nat)
    requires i == 0 || i == |hooks|
    ensures i == 0 ==> hooks[..i] + ChangeFirstHook(hooks[i..], h) == ChangeFirstHook(hooks, h)
    ensures i == |hooks| ==> hooks[..i] + ChangeFirstHook(hooks[i..], h) == hooks
  {
    if i == 0 { assert hooks[0..] == hooks && hooks[..0] == []; }
    if i == |hooks| { assert hooks[i..] == [] && hooks[..i] == hooks; }
  }

  lemma AtOwnKey(settings: Settings, key: (ID, Kind))
    requires WellTyped(settings) && key in settings
    ensures key == (settings[key].user, settings[key].kind)
  {
  }

  lemma OneListing(order: seq<ID>, settings: Settings, user: ID, kind: Kind)
    requires IsListing(order, settings, Some(user), kind)
    ensures order == if (user, kind) in settings then [user] else []
  {
    if order != [] {
      var last := |order| - 1;
      assert order[0] == user && order[last] == user;
    }
  }

  class SettingsStore {
    const cache: C.Cache<Setting>
    /** The database. */
    var settings: Settings

    constructor (maxItems: int, ttl: int, settings: Settings)
      requires WellTyped(settings)
      ensures Valid() && fresh(cache) && this.settings == settings
      ensures cache.data == map[] && cache.maxItems == maxItems && cache.defaultTTL == ttl
    {
      var c := new C.Cache(maxItems, ttl);
      cache, this.settings := c, settings;
    }

    ghost predicate Valid()
      reads this, cache
    {
      cache.Valid() && WellTyped(settings) && SettingsCoherent(cache.data, settings)
    }

    method Remember(s: Setting, now: int)
      requires cache.Valid() && WellTyped(settings) && IsStored(SettingKey(s.user, s.kind), s, settings)
      requires CoherentBut(cache.data, settings, SettingKey(s.user, s.kind))
      modifies cache
      ensures Valid()
      ensures cache.HasRoom(old(cache.data), SettingKey(s.user, s.kind)) ==>
                cache.data == old(cache.data)[SettingKey(s.user, s.kind) := C.Item(s, now + cache.defaultTTL)]
    {
      hide SettingKey, WellTyped, SettingsCoherent, CoherentBut, IsStored;
      var key := SettingKey(s.user, s.kind);
      cache.Set(key, s, now);
      forall k | k in cache.data && k != key ensures k in old(cache.data) && cache.data[k] == old(cache.data)[k] {
        assert cache.latest[k] == cache.data[k];
      }
      RememberMends(old(cache.data), cache.data, settings, key);
    }

    /** `works` tells whether the driver writes; when it does not, nothing has changed. */
    method UpsertUserSetting(s: Setting, works: bool, now: int) returns (r: Result<Setting, StoreError>)
      requires cache.Valid() && WellTyped(settings) && (s.kind == Unspecified || IsTyped(s))
      requires CoherentBut(cache.data, settings, SettingKey(s.user, s.kind))
      modifies this, cache
      ensures r.Ok? <==> works && s.kind != Unspecified
      ensures r.Ok? ==> Valid() && r.value == s && settings == Written(old(settings), s)
      ensures r.Err? ==> cache.Valid() && settings == old(settings) && cache.data == old(cache.data)
    {
      hide SettingKey, SettingsCoherent, CoherentBut;
      if s.kind == Unspecified { return Err(UnsupportedKey); }
      if !works { return Err(DriverFailed); }
      WriteKeepsOthers(cache.data, settings, s);
      settings := Written(settings, s);
      Remember(s, now);
      return Ok(s);
    }

    /** `order` are the users whose settings the driver lists. */
    method ListUserSettings(kind: Kind, order: seq<ID>, works: bool, now: int)
      returns (r: Result<seq<Setting>, StoreError>)
      requires Valid() && forall i :: 0 <= i < |order| ==> (order[i], kind) in settings
      modifies cache
      ensures Valid() && settings == old(settings)
      ensures r == if works then Ok(Listed(order, settings, kind)) else Err(DriverFailed)
      ensures works && |order| == 1 && cache.HasRoom(old(cache.data), SettingKey(order[0], kind)) ==>
                cache.data ==
                old(cache.data)[SettingKey(order[0], kind) :=
                    C.Item(settings[(order[0], kind)], now + cache.defaultTTL)]
    {
      hide SettingKey, WellTyped, SettingsCoherent, CoherentBut;
      if !works { return Err(DriverFailed); }
      var list: seq<Setting> := [];
      for i := 0 to |order|
        invariant Valid()
        invariant list == Listed(order, settings, kind)[..i]
        invariant i == 0 ==> cache.data == old(cache.data)
        invariant i == |order| == 1 && cache.HasRoom(old(cache.data), SettingKey(order[0], kind)) ==>
                    cache.data ==
                    old(cache.data)[SettingKey(order[0], kind) :=
                        C.Item(settings[(order[0], kind)], now + cache.defaultTTL)]
      {
        AtOwnKey(settings, (order[i], kind));
        CoherentWithout(cache.data, settings, SettingKey(order[i], kind));
        Remember(settings[(order[i], kind)], now);
        list := list + [settings[(order[i], kind)]];
      }
      assert Listed(order, settings, kind)[..|order|] == Listed(order, settings, kind);
      return Ok(list);
    }

    /** Reading a setting of a user gives the stored one, whatever was cached, expired or evicted. */
    method GetUserSetting(user: Option<ID>, kind: Kind, order: seq<ID>, works: bool, now: int)
      returns (r: Result<Option<Setting>, StoreError>)
      requires Valid() && IsListing(order, settings, user, kind)
      modifies cache
      ensures Valid() && settings == old(settings)
      ensures user.Some? && r.Ok? ==>
                r.value == if (user.value, kind) in settings then Some(settings[(user.value, kind)]) else None
      ensures user.Some? ==> (r.Err? <==> !works && !IsFresh(old(cache.data), SettingKey(user.value, kind), now))
      ensures user.None? ==> (r.Ok? <==> works && |order| <= 1)
      ensures user.None? && r.Ok? ==> r.value == if order == [] then None else Some(settings[(order[0], kind)])
      ensures user.Some? && r.Ok? && r.value.Some? ==> StaysCached(old(cache.data), user.value, kind, now)
    {
      hide SettingKey, WellTyped, SettingsCoherent, CoherentBut, IsStored;
      if user.Some? {
        OwnEntry(cache.data, settings, user.value, kind);
        CoherentWithout(cache.data, settings, SettingKey(user.value, kind));
        OneListing(order, settings, user.value, kind);
        var cached := cache.Get(SettingKey(user.value, kind), now);
        if cached.Some? { return Ok(cached); }
      }
      hide IsListing;
      r := FetchUserSetting(order, kind, works, now);
    }

    /** The one setting the driver lists. */
    method FetchUserSetting(order: seq<ID>, kind: Kind, works: bool, now: int)
      returns (r: Result<Option<Setting>, StoreError>)
      requires Valid() && forall i :: 0 <= i < |order| ==> (order[i], kind) in settings
      modifies cache
      ensures Valid() && settings == old(settings)
      ensures r.Ok? <==> works && |order| <= 1
      ensures r.Ok? ==> r.value == if order == [] then None else Some(settings[(order[0], kind)])
      ensures r.Ok? && order != [] && cache.HasRoom(old(cache.data), SettingKey(order[0], kind)) ==>
                && SettingKey(order[0], kind) in cache.data
                && cache.data[SettingKey(order[0], kind)].expiration == now + cache.defaultTTL
    {
      hide SettingKey, WellTyped, SettingsCoherent, CoherentBut;
      if order != [] { AtOwnKey(settings, (order[0], kind)); }
      var list := ListUserSettings(kind, order, works, now);
      if list.Err? { return Err(list.error); }
      if |list.value| == 0 { return Ok(None); }
      if |list.value| > 1 { return Err(SeveralFound); }
      CoherentWithout(cache.data, settings, SettingKey(order[0], kind));
      Remember(list.value[0], now);
      return Ok(Some(list.value[0]));
    }

    /** A setting that was read is cached, unless it had to go for lack of room. */
    ghost predicate StaysCached(before: map<string, C.Item<Setting>>, user: ID, kind: Kind, now: int)
      reads this, cache
    {
      var key := SettingKey(user, kind);
      cache.HasRoom(before, key) ==>
        key in cache.data && (IsFresh(before, key, now) || cache.data[key].expiration == now + cache.defaultTTL)
    }

    /** The setting of one user, as the driver lists it. */
    method Read(user: ID, kind: Kind, works: bool, now: int) returns (r: Result<Option<Setting>, StoreError>)
      requires Valid()
      modifies cache
      ensures Valid() && settings == old(settings)
      ensures r.Ok? ==> r.value == if (user, kind) in settings then Some(settings[(user, kind)]) else None
      ensures r.Err? <==> !works && !IsFresh(old(cache.data), SettingKey(user, kind), now)
      ensures r.Ok? && r.value.Some? ==> StaysCached(old(cache.data), user, kind, now)
    {
      hide SettingKey;
      r := GetUserSetting(Some(user), kind, if (user, kind) in settings then [user] else [], works, now);
    }

    // ----- Refresh tokens

    method GetUserRefreshTokens(user: ID, canRead: bool, now: int) returns (r: Result<seq<Token>, StoreError>)
      requires Valid()
      modifies cache
      ensures Valid() && settings == old(settings)
      ensures r.Ok? ==> r.value == TokensOf(settings, user)
      ensures r.Ok? && (user, RefreshTokens) in settings ==>
                settings[(user, RefreshTokens)].value == TokensValue(r.value)
      ensures r.Ok? && (user, RefreshTokens) !in settings ==> r.value == []
      ensures canRead ==> r.Ok?
    {
      hide SettingKey;
      var setting := Read(user, RefreshTokens, canRead, now);
      if setting.Err? { return Err(setting.error); }
      if setting.value.None? { return Ok([]); }
      return Ok(setting.value.value.value.tokens);
    }

    method AddUserRefreshToken(user: ID, token: Token, canRead: bool, canWrite: bool, now: int)
      returns (r: Result<(), StoreError>)
      requires Valid()
      modifies this, cache
      ensures Valid() && (canRead && canWrite ==> r.Ok?)
      ensures settings ==
                if r.Ok? then Written(old(settings), TokensSetting(user, TokensOf(old(settings), user) + [token]))
                else old(settings)
    {
      var tokens := GetUserRefreshTokens(user, canRead, now);
      if tokens.Err? { return Err(tokens.error); }
      CoherentWithout(cache.data, settings, SettingKey(user, RefreshTokens));
      var written := UpsertUserSetting(TokensSetting(user, tokens.value + [token]), canWrite, now);
      if written.Err? { return Err(written.error); }
      return Ok(());
    }

    method RemoveUserRefreshToken(user: ID, id: string, canRead: bool, canWrite: bool, now: int)
      returns (r: Result<(), StoreError>)
      requires Valid()
      modifies this, cache
      ensures Valid() && (canRead && canWrite ==> r.Ok?)
      ensures settings ==
                if r.Ok?
                then Written(old(settings), TokensSetting(user, WithoutToken(TokensOf(old(settings), user), id)))
                else old(settings)
    {
      var existing := GetUserRefreshTokens(user, canRead, now);
      if existing.Err? { return Err(existing.error); }
      var newTokens := KeepOtherTokens(existing.value, id);
      CoherentWithout(cache.data, settings, SettingKey(user, RefreshTokens));
      var written := UpsertUserSetting(TokensSetting(user, newTokens), canWrite, now);
      if written.Err? { return Err(written.error); }
      return Ok(());
    }

    method GetUserRefreshTokenByID(user: ID, id: string, canRead: bool, now: int)
      returns (r: Result<Option<Token>, StoreError>)
      requires Valid()
      modifies cache
      ensures Valid() && settings == old(settings) && (canRead ==> r.Ok?)
      ensures r.Ok? ==> r.value == FindToken(TokensOf(settings, user), id)
    {
      var tokens := GetUserRefreshTokens(user, canRead, now);
      if tokens.Err? { return Err(tokens.error); }
      for i := 0 to |tokens.value|
        invariant FindToken(tokens.value, id) == FindToken(tokens.value[i..], id)
      {
        assert tokens.value[i..][1..] == tokens.value[i + 1..];
        if tokens.value[i].id == id { return Ok(Some(tokens.value[i])); }
      }
      return Ok(None);
    }

    // ----- Webhooks

    method GetUserWebhooks(user: ID, canRead: bool, now: int) returns (r: Result<seq<Webhook>, StoreError>)
      requires Valid()
      modifies cache
      ensures Valid() && settings == old(settings)
      ensures r.Ok? ==> r.value == HooksOf(settings, user)
      ensures r.Ok? && (user, Webhooks) in settings ==> settings[(user, Webhooks)].value == HooksValue(r.value)
      ensures r.Ok? && (user, Webhooks) !in settings ==> r.value == []
      ensures r.Err? <==> !canRead && !IsFresh(old(cache.data), SettingKey(user, Webhooks), now)
      ensures r.Ok? && (user, Webhooks) in settings ==> StaysCached(old(cache.data), user, Webhooks, now)
    {
      hide SettingKey;
      var setting := Read(user, Webhooks, canRead, now);
      if setting.Err? { return Err(setting.error); }
      if setting.value.None? { return Ok([]); }
      return Ok(setting.value.value.value.hooks);
    }

    method AddUserWebhook(user: ID, hook: Webhook, canRead: bool, canWrite: bool, now: int)
      returns (r: Result<(), StoreError>)
      requires Valid()
      modifies this, cache
      ensures Valid() && (canRead && canWrite ==> r.Ok?)
      ensures settings ==
                if r.Ok? then Written(old(settings), HooksSetting(user, WithHook(HooksOf(old(settings), user), hook)))
                else old(settings)
    {
      hide SettingKey;
      var existing := GetUserWebhooks(user, canRead, now);
      if existing.Err? { return Err(existing.error); }
      var updated := PutHook(existing.value, hook);
      CoherentWithout(cache.data, settings, SettingKey(user, Webhooks));
      var written := UpsertUserSetting(HooksSetting(user, updated), canWrite, now);
      if written.Err? { return Err(written.error); }
      return Ok(());
    }

    method RemoveUserWebhook(user: ID, id: string, canRead: bool, canWrite: bool, now: int)
      returns (r: Result<(), StoreError>)
      requires Valid()
      modifies this, cache
      ensures Valid() && (canRead && canWrite ==> r.Ok?)
      ensures settings ==
                if r.Ok? then Written(old(settings), HooksSetting(user, WithoutHook(HooksOf(old(settings), user), id)))
                else old(settings)
    {
      hide SettingKey;
      var existing := GetUserWebhooks(user, canRead, now);
      if existing.Err? { return Err(existing.error); }
      var newHooks := KeepOtherHooks(existing.value, id);
      CoherentWithout(cache.data, settings, SettingKey(user, Webhooks));
      var written := UpsertUserSetting(HooksSetting(user, newHooks), canWrite, now);
      if written.Err? { return Err(written.error); }
      return Ok(());
    }

    /** The list is changed in place, where the cache still holds it, before it is written. When the
        driver then fails, the cache differs from the database exactly when it holds the list and the
        change was one; with room in the cache, exactly when the list was read and the change was one. */
    method UpdateUserWebhook(user: ID, hook: Webhook, canRead: bool, canWrite: bool, now: int)
      returns (r: Result<(), StoreError>)
      requires Valid()
      modifies this, cache
      ensures cache.Valid() && WellTyped(settings) && (canRead && canWrite ==> r.Ok?) && (r.Ok? ==> canWrite)
      ensures settings == if r.Ok? then Effect(old(settings), UpdateHook(user, hook)) else old(settings)
      ensures r.Ok? || canWrite ==> Valid()
      ensures r.Err? ==>
                var wasRead := canRead || IsFresh(old(cache.data), SettingKey(user, Webhooks), now);
                var changed := ChangesHook(settings, user, hook);
                var key := SettingKey(user, Webhooks);
                && (!Valid() <==> !canWrite && wasRead && key in cache.data && changed)
                && (cache.HasRoom(old(cache.data), key) ==> (!Valid() <==> !canWrite && wasRead && changed))
                && (!Valid() ==>
                      cache.data[key].value == HooksSetting(user, ChangeFirstHook(HooksOf(settings, user), hook)))
                && (!Valid() && cache.HasRoom(old(cache.data), key) ==>
                    StaysCached(old(cache.data), user, Webhooks, now))
    {
      hide SettingKey, SettingsCoherent, CoherentBut, IsStored, WellTyped, ChangeFirstHook, ChangesHook, HooksOf;
      var webhooks := GetUserWebhooks(user, canRead, now);
      if webhooks.Err? { return Err(webhooks.error); }
      var hooks := ChangeHook(webhooks.value, hook);
      ChangedIsStored(settings, user, hook);
      var key := SettingKey(user, Webhooks);
      OwnEntry(cache.data, settings, user, Webhooks);
      CoherentWithout(cache.data, settings, key);
      if key in cache.data {
        StoredHooks(settings, user, hooks);
        ChangedInPlace(cache.data, settings, HooksSetting(user, hooks), cache.data[key].expiration);
        cache.ChangeInPlace(key, HooksSetting(user, hooks));
      }
      var written := UpsertUserSetting(HooksSetting(user, hooks), canWrite, now);
      if written.Err? { return Err(written.error); }
      return Ok(());
    }

    /** Removal of what has expired, at any moment. */
    method Cleanup(clock: string -> int)
      requires Valid()
      modifies cache
      ensures Valid() && settings == old(settings)
    {
      cache.Cleanup(clock);
    }

    // ----- Runs

    method Perform(step: Step) returns (ok: bool)
      requires Valid() && step.Allowed()
      modifies this, cache
      ensures Valid() && (step.canRead && step.canWrite ==> ok)
      ensures settings == if ok then Effect(old(settings), step.op) else old(settings)
    {
      hide SettingKey, TokensOf, HooksOf, Written, WithHook, WithoutHook, WithoutToken;
      var Step(op, canRead, canWrite, now) := step;
      ok := true;
      match op {
        case AddToken(user, token) => var r := AddUserRefreshToken(user, token, canRead, canWrite, now); ok := r.Ok?;
        case RemoveToken(user, id) => var r := RemoveUserRefreshToken(user, id, canRead, canWrite, now); ok := r.Ok?;
        case AddHook(user, hook) => var r := AddUserWebhook(user, hook, canRead, canWrite, now); ok := r.Ok?;
        case UpdateHook(user, hook) => var r := UpdateUserWebhook(user, hook, canRead, canWrite, now); ok := r.Ok?;
        case RemoveHook(user, id) => var r := RemoveUserWebhook(user, id, canRead, canWrite, now); ok := r.Ok?;
        case Upsert(s) =>
          CoherentWithout(cache.data, settings, SettingKey(s.user, s.kind));
          var r := UpsertUserSetting(s, canWrite, now); ok := r.Ok?;
        case Get(user, kind) => var r := Read(user, kind, canRead, now); ok := r.Ok?;
        case Clean(times, otherwise) => Cleanup(key => if key in times then times[key] else otherwise);
      }
    }

    /** Whatever the driver refuses, the cache stays coherent and the database is what the operations
        that succeeded make of it. */
    method PerformAll(steps: seq<Step>) returns (oks: seq<bool>)
      requires Valid() && forall i :: 0 <= i < |steps| ==> steps[i].Allowed()
      modifies this, cache
      ensures Valid() && |oks| == |steps| && settings == Effects(old(settings), steps, oks)
      ensures forall i :: 0 <= i < |steps| && steps[i].canRead && steps[i].canWrite ==> oks[i]
    {
      hide Effect, WellTyped, SettingsCoherent, IsTyped;
      oks := [];
      for i := 0 to |steps|
        invariant Valid() && |oks| == i && settings == Effects(old(settings), steps[..i], oks)
        invariant forall j :: 0 <= j < i && steps[j].canRead && steps[j].canWrite ==> oks[j]
      {
        var ok := Perform(steps[i]);
        EffectsAppend(old(settings), steps[..i], oks, steps[i], ok);
        assert steps[..i + 1] == steps[..i] + [steps[i]];
        oks := oks + [ok];
      }
      assert steps[..|steps|] == steps;
    }

    /** A refresh token that was removed is not returned at the end of any further run that does not add
        it again: sessions stay revoked across reads, expiry, eviction, cleanups and driver errors. */
    method AfterRemoval(steps: seq<Step>, user: ID, id: string, canRead: bool, now: int)
      returns (oks: seq<bool>, r: Result<Option<Token>, StoreError>)
      requires Valid() && forall i :: 0 <= i < |steps| ==> steps[i].Allowed()
      requires steps != [] && steps[0].op == RemoveToken(user, id)
      requires forall i :: 0 < i < |steps| ==> !Readds(steps[i].op, user, id)
      modifies this, cache
      ensures Valid() && |oks| == |steps|
      ensures steps[0].canRead && steps[0].canWrite ==> oks[0]
      ensures canRead ==> r.Ok?
      ensures oks[0] && r.Ok? ==> r.value == None
    {
      hide Effects, WellTyped, SettingsCoherent, IsTyped, FindToken;
      oks := PerformAll(steps);
      if oks[0] { RemovedTokenStaysAway(old(settings), steps, oks, user, id); }
      r := GetUserRefreshTokenByID(user, id, canRead, now);
    }

    /** A refresh token that was added with an unused ID is returned at the end of every further run that
        neither removes it nor replaces the user's tokens: a session stays known. */
    method AfterAdding(steps: seq<Step>, user: ID, token: Token, canRead: bool, now: int)
      returns (oks: seq<bool>, r: Result<Option<Token>, StoreError>)
      requires Valid() && forall i :: 0 <= i < |steps| ==> steps[i].Allowed()
      requires steps != [] && steps[0].op == AddToken(user, token)
      requires forall i :: 0 < i < |steps| ==>
                 steps[i].op != RemoveToken(user, token.id)
                 && !(steps[i].op.Upsert? && steps[i].op.s.user == user && steps[i].op.s.kind == RefreshTokens)
      requires (user, RefreshTokens) in settings && settings[(user, RefreshTokens)].value.TokensValue? ==>
                 var ts := settings[(user, RefreshTokens)].value.tokens;
                 forall k :: 0 <= k < |ts| ==> ts[k].id != token.id
      modifies this, cache
      ensures Valid() && |oks| == |steps|
      ensures steps[0].canRead && steps[0].canWrite ==> oks[0]
      ensures canRead ==> r.Ok?
      ensures oks[0] && r.Ok? ==> r.value == Some(token)
    {
      hide Effects, WellTyped, SettingsCoherent, IsTyped, FindToken;
      FindTokenIsFirst(TokensOf(settings, user), token.id);
      oks := PerformAll(steps);
      if oks[0] { AddedTokenStays(old(settings), steps, oks, user, token); }
      r := GetUserRefreshTokenByID(user, token.id, canRead, now);
    }

    /** A webhook that was added is among the webhooks read at the end of every further run that does not
        touch its ID or replace the user's webhooks. */
    method AfterAddingHook(steps: seq<Step>, user: ID, hook: Webhook, canRead: bool, now: int)
      returns (oks: seq<bool>, r: Result<seq<Webhook>, StoreError>)
      requires Valid() && forall i :: 0 <= i < |steps| ==> steps[i].Allowed()
      requires steps != [] && steps[0].op == AddHook(user, hook)
      requires forall i :: 0 < i < |steps| ==> !TouchesHook(steps[i].op, user, hook.id)
      modifies this, cache
      ensures Valid() && |oks| == |steps|
      ensures steps[0].canRead && steps[0].canWrite ==> oks[0]
      ensures canRead ==> r.Ok?
      ensures oks[0] && r.Ok? ==>
                exists k ::
                  0 <= k < |r.value| && r.value[k] == hook && forall j :: 0 <= j < k ==> r.value[j].id != hook.id
    {
      hide Effects, WellTyped, SettingsCoherent, IsTyped, FindHook;
      oks := PerformAll(steps);
      if oks[0] { AddedHookStays(old(settings), steps, oks, user, hook); }
      r := GetUserWebhooks(user, canRead, now);
      if r.Ok? { FindHookIsFirst(r.value, hook.id); }
    }

    /** A webhook that was removed is not among those read at the end of any further run that does not add
        it again. */
    method AfterRemovingHook(steps: seq<Step>, user: ID, id: string, canRead: bool, now: int)
      returns (oks: seq<bool>, r: Result<seq<Webhook>, StoreError>)
      requires Valid() && forall i :: 0 <= i < |steps| ==> steps[i].Allowed()
      requires steps != [] && steps[0].op == RemoveHook(user, id)
      requires forall i :: 0 < i < |steps| ==> !TouchesHook(steps[i].op, user, id)
      modifies this, cache
      ensures Valid() && |oks| == |steps|
      ensures steps[0].canRead && steps[0].canWrite ==> oks[0]
      ensures canRead ==> r.Ok?
      ensures oks[0] && r.Ok? ==> forall k :: 0 <= k < |r.value| ==> r.value[k].id != id
    {
      hide Effects, WellTyped, SettingsCoherent, IsTyped, FindHook;
      oks := PerformAll(steps);
      if oks[0] { RemovedHookStaysAway(old(settings), steps, oks, user, id); }
      r := GetUserWebhooks(user, canRead, now);
      if r.Ok? { FindHookIsFirst(r.value, id); }
    }
  }

  /** A list that is stored and then changed by a call whose write fails is read back as changed. */
  method FailedWriteIsRead(user: ID, was: Webhook, hook: Webhook, now: int)
    returns (stored: Setting, read: Option<Setting>)
    requires was.id == hook.id && was != hook
    ensures stored == HooksSetting(user, [was]) && read == Some(HooksSetting(user, [hook]))
  {
    hide SettingKey;
    var store := new SettingsStore(1000, 600, map[(user, Webhooks) := HooksSetting(user, [was])]);
    var failed := store.UpdateUserWebhook(user, hook, true, false, now);
    assert FindHook([was], hook.id) == Some(was) && ChangeFirstHook([was], hook) == [hook];
    assert !store.Valid();
    read := store.cache.Get(SettingKey(user, Webhooks), now);
    stored := store.settings[(user, Webhooks)];
  }

  // ----- What operations do to the database

  datatype Op =
    | AddToken(user: ID, token: Token)
    | RemoveToken(user: ID, id: string)
    | AddHook(user: ID, hook: Webhook)
    | UpdateHook(user: ID, hook: Webhook)
    | RemoveHook(user: ID, id: string)
    | Upsert(s: Setting)
    | Get(user: ID, kind: Kind)
    | Clean(times: map<string, int>, otherwise: int)

  /** An operation, whether the driver reads and writes for it, and the time on the clock. */
  datatype Step = Step(op: Op, canRead: bool, canWrite: bool, now: int) {
    /** Settings are typed, and no write of a webhook changed in place fails. */
    predicate Allowed() { (op.Upsert? ==> IsTyped(op.s)) && (op.UpdateHook? ==> canWrite) }
  }

  function Effect(settings: Settings, op: Op): Settings
  {
    match op
    case AddToken(user, token) => Written(settings, TokensSetting(user, TokensOf(settings, user) + [token]))
    case RemoveToken(user, id) => Written(settings, TokensSetting(user, WithoutToken(TokensOf(settings, user), id)))
    case AddHook(user, hook) => Written(settings, HooksSetting(user, WithHook(HooksOf(settings, user), hook)))
    case UpdateHook(user, hook) => Written(settings, HooksSetting(user, ChangeFirstHook(HooksOf(settings, user), hook)))
    case RemoveHook(user, id) => Written(settings, HooksSetting(user, WithoutHook(HooksOf(settings, user), id)))
    case Upsert(s) => Written(settings, s)
    case Get(_, _) => settings
    case Clean(_, _) => settings
  }

  /** The effects of the steps that succeeded, in order. */
  function Effects(settings: Settings, steps: seq<Step>, oks: seq<bool>): Settings
    requires |steps| == |oks|
  {
    if steps == [] then settings
    else
      var last := |steps| - 1;
      var before := Effects(settings, steps[..last], oks[..last]);
      if oks[last] then Effect(before, steps[last].op) else before
  }

  lemma EffectsAppend(settings: Settings, steps: seq<Step>, oks: seq<bool>, step: Step, ok: bool)
    requires |steps| == |oks|
    ensures Effects(settings, steps + [step], oks + [ok]) ==
            var before := Effects(settings, steps, oks); if ok then Effect(before, step.op) else before
  {
    assert (steps + [step])[..|steps|] == steps && (oks + [ok])[..|oks|] == oks;
  }

  /** The operation gives the user a token of this ID. */
  predicate Readds(op: Op, user: ID, id: string)
  {
    match op
    case AddToken(u, token) => u == user && token.id == id
    case Upsert(s) => s.user == user && s.value.TokensValue? && FindToken(s.value.tokens, id).Some?
    case _ => false
  }

  lemma EffectOnToken(settings: Settings, op: Op, user: ID, id: string)
    ensures FindToken(TokensOf(settings, user), id).None? && !Readds(op, user, id) ==>
              FindToken(TokensOf(Effect(settings, op), user), id).None?
    ensures op == RemoveToken(user, id) ==> FindToken(TokensOf(Effect(settings, op), user), id).None?
  {
    match op {
      case AddToken(u, token) => FindAfterAdding(TokensOf(settings, u), token, id);
      case RemoveToken(u, other) => FindAfterRemoval(TokensOf(settings, u), other, id);
      case _ =>
    }
  }

  /** A removed token is not found again, whatever follows, until it is added again. */
  lemma {:induction false} RemovedTokenStaysAway(settings: Settings, steps: seq<Step>, oks: seq<bool>, user: ID,
          id: string)
    requires |steps| == |oks| && steps != [] && steps[0].op == RemoveToken(user, id) && oks[0]
    requires forall i :: 0 < i < |steps| ==> !Readds(steps[i].op, user, id)
    ensures FindToken(TokensOf(Effects(settings, steps, oks), user), id).None?
    decreases |steps|
  {
    hide Effect, TokensOf;
    var last := |steps| - 1;
    EffectOnToken(Effects(settings, steps[..last], oks[..last]), steps[last].op, user, id);
    if last > 0 { RemovedTokenStaysAway(settings, steps[..last], oks[..last], user, id); }
  }

  /** The operation removes the user's token of this ID or replaces all of the user's tokens. */
  predicate Drops(op: Op, user: ID, id: string)
  {
    op == RemoveToken(user, id) || (op.Upsert? && op.s.user == user && op.s.kind == RefreshTokens)
  }

  /** No operation but these loses a token: adding and removing others keeps it findable. */
  lemma EffectKeepsToken(settings: Settings, op: Op, user: ID, id: string)
    requires !Drops(op, user, id)
    requires FindToken(TokensOf(settings, user), id).Some?
    ensures FindToken(TokensOf(Effect(settings, op), user), id) == FindToken(TokensOf(settings, user), id)
  {
    match op {
      case AddToken(u, token) => FindAfterAdding(TokensOf(settings, u), token, id);
      case RemoveToken(u, other) => FindAfterRemoval(TokensOf(settings, u), other, id);
      case _ =>
    }
  }

  lemma EffectAddsToken(settings: Settings, user: ID, token: Token)
    requires FindToken(TokensOf(settings, user), token.id).None?
    ensures FindToken(TokensOf(Effect(settings, AddToken(user, token)), user), token.id) == Some(token)
  {
    FindAfterAdding(TokensOf(settings, user), token, token.id);
  }

  /** An added token stays, whatever follows, until it is removed or replaced. */
  lemma {:induction false} AddedTokenStays(settings: Settings, steps: seq<Step>, oks: seq<bool>, user: ID, token: Token)
    requires |steps| == |oks| && steps != [] && steps[0].op == AddToken(user, token) && oks[0]
    requires FindToken(TokensOf(settings, user), token.id).None?
    requires forall i :: 0 < i < |steps| ==> !Drops(steps[i].op, user, token.id)
    ensures FindToken(TokensOf(Effects(settings, steps, oks), user), token.id) == Some(token)
    decreases |steps|
  {
    hide Effect, TokensOf, Drops;
    var last := |steps| - 1;
    if last == 0 {
      EffectAddsToken(settings, user, token);
      assert steps[..last] == [] && oks[..last] == [];
    } else {
      AddedTokenStays(settings, steps[..last], oks[..last], user, token);
      EffectKeepsToken(Effects(settings, steps[..last], oks[..last]), steps[last].op, user, token.id);
    }
  }

  /** The operation adds, changes or removes the user's webhook of this ID, or replaces all of them. */
  predicate TouchesHook(op: Op, user: ID, id: string)
  {
    match op
    case AddHook(u, hook) => u == user && hook.id == id
    case UpdateHook(u, hook) => u == user && hook.id == id
    case RemoveHook(u, other) => u == user && other == id
    case Upsert(s) => s.user == user && s.kind == Webhooks
    case _ => false
  }

  lemma EffectOnHook(settings: Settings, op: Op, user: ID, id: string)
    ensures !TouchesHook(op, user, id) ==>
              FindHook(HooksOf(Effect(settings, op), user), id) == FindHook(HooksOf(settings, user), id)
    ensures op == RemoveHook(user, id) ==> FindHook(HooksOf(Effect(settings, op), user), id).None?
    ensures op.AddHook? && op.user == user && op.hook.id == id ==>
              FindHook(HooksOf(Effect(settings, op), user), id) == Some(op.hook)
  {
    match op {
      case AddHook(u, hook) => FindAfterUpsert(HooksOf(settings, u), hook, id);
      case UpdateHook(u, hook) => FindAfterChange(HooksOf(settings, u), hook, id);
      case RemoveHook(u, other) => FindAfterHookRemoval(HooksOf(settings, u), other, id);
      case _ =>
    }
  }

  /** What a run that starts with an operation on a webhook and then leaves it alone ends with. */
  lemma {:induction false} HookStays(settings: Settings, steps: seq<Step>, oks: seq<bool>, user: ID, id: string)
    requires |steps| == |oks| && steps != [] && oks[0]
    requires forall i :: 0 < i < |steps| ==> !TouchesHook(steps[i].op, user, id)
    ensures FindHook(HooksOf(Effects(settings, steps, oks), user), id) ==
            FindHook(HooksOf(Effect(settings, steps[0].op), user), id)
    decreases |steps|
  {
    hide Effect, HooksOf, TouchesHook;
    var last := |steps| - 1;
    if last == 0 {
      assert steps[..last] == [] && oks[..last] == [];
    } else {
      HookStays(settings, steps[..last], oks[..last], user, id);
      EffectOnHook(Effects(settings, steps[..last], oks[..last]), steps[last].op, user, id);
    }
  }

  lemma AddedHookStays(settings: Settings, steps: seq<Step>, oks: seq<bool>, user: ID, hook: Webhook)
    requires |steps| == |oks| && steps != [] && steps[0].op == AddHook(user, hook) && oks[0]
    requires forall i :: 0 < i < |steps| ==> !TouchesHook(steps[i].op, user, hook.id)
    ensures FindHook(HooksOf(Effects(settings, steps, oks), user), hook.id) == Some(hook)
  {
    hide Effect, HooksOf, TouchesHook;
    HookStays(settings, steps, oks, user, hook.id);
    EffectOnHook(settings, steps[0].op, user, hook.id);
  }

  lemma RemovedHookStaysAway(settings: Settings, steps: seq<Step>, oks: seq<bool>, user: ID, id: string)
    requires |steps| == |oks| && steps != [] && steps[0].op == RemoveHook(user, id) && oks[0]
    requires forall i :: 0 < i < |steps| ==> !TouchesHook(steps[i].op, user, id)
    ensures FindHook(HooksOf(Effects(settings, steps, oks), user), id).None?
  {
    hide Effect, HooksOf, TouchesHook;
    HookStays(settings, steps, oks, user, id);
    EffectOnHook(settings, steps[0].op, user, id);
  }
}
