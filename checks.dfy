/** The permission predicates that gate the bot's commands
    (cogs/utils/checks.py). A command runs when its check says yes: the bot's
    owner always passes; anyone else passes when the permissions resolved for
    them match the required ones, combined with `all` or `any`. */
module Checks {
  import opened Wrappers
  import opened Dicts

  const ManageGuild: string := "manage_guild"
  const Administrator: string := "administrator"
  const EmbedLinks: string := "embed_links"

  /** A resolved permission set: what the framework says the author may do,
      by permission name. A name not present is not an attribute of it. */
  type Permissions = map<string, bool>

  /** Required permissions, as the keyword arguments of a decorator give
      them: an ordered dictionary from permission name to required value. */
  type Requirements = Dict<string, bool>

  datatype Guild = Guild(id: int, authorPermissions: Permissions)

  /** The invocation context, reduced to what the checks read: the answer of
      the owner oracle, the author's permissions in the channel, and the guild
      (absent in a direct message) with the author's guild-wide permissions. */
  datatype Context = Context(authorIsOwner: bool, channelPermissions: Permissions, guild: Option<Guild>)

  /** The `check` argument: the builtin `all` or `any`. */
  datatype Combine = All | Any

  /** `getattr(resolved, name, None)`. */
  function Lookup(resolved: Permissions, name: string): Option<bool> {
    if name in resolved then Some(resolved[name]) else None
  }

  /** One test of the generator: `getattr(resolved, name, None) == value`. */
  predicate Matches(resolved: Permissions, requirement: (string, bool)) {
    Lookup(resolved, requirement.0) == Some(requirement.1)
  }

  /** `all(...)` over the tests, in the order of the requirements; it stops
      at the first test that fails. */
  function AllMatch(resolved: Permissions, reqs: seq<(string, bool)>): (r: bool)
    ensures r <==> forall i | 0 <= i < |reqs| :: Matches(resolved, reqs[i])
  {
    if reqs == [] then true
    else Matches(resolved, reqs[0]) && AllMatch(resolved, reqs[1..])
  }

  /** `any(...)` over the tests, in the order of the requirements; it stops
      at the first test that succeeds. */
  function AnyMatch(resolved: Permissions, reqs: seq<(string, bool)>): (r: bool)
    ensures r <==> exists i | 0 <= i < |reqs| :: Matches(resolved, reqs[i])
  {
    if reqs == [] then false
    else if Matches(resolved, reqs[0]) then true
    else
      var r := AnyMatch(resolved, reqs[1..]);
      assert r ==> exists i | 0 <= i < |reqs| :: Matches(resolved, reqs[i]) by {
        if r {
          var j :| 0 <= j < |reqs[1..]| && Matches(resolved, reqs[1..][j]);
          assert reqs[j + 1] == reqs[1..][j];
        }
      }
      assert !r ==> forall i | 0 <= i < |reqs| :: !Matches(resolved, reqs[i]) by {
        if !r {
          forall i | 0 <= i < |reqs| ensures !Matches(resolved, reqs[i]) {
            if i > 0 { assert reqs[i] == reqs[1..][i - 1]; }
          }
        }
      }
      r
  }

  /** What a requirement mapping means, stated on the mapping alone: under
      `all` every required name is resolved to exactly the required value
      (so an empty mapping is satisfied); under `any` at least one is (so an
      empty mapping is not). A name missing from the resolved set matches
      nothing, whatever value is required. */
  ghost predicate Satisfied(combine: Combine, resolved: Permissions, required: map<string, bool>) {
    match combine
    case All => forall name | name in required :: name in resolved && resolved[name] == required[name]
    case Any => exists name | name in required :: name in resolved && resolved[name] == required[name]
  }

  /** `check(getattr(resolved, name, None) == value for name, value in perms.items())`. */
  function Evaluate(combine: Combine, resolved: Permissions, perms: Requirements): (r: bool)
    ensures r <==> Satisfied(combine, resolved, ToMap(perms))
  {
    var m := ToMap(perms);
    match combine
    case All =>
      var r := AllMatch(resolved, perms);
      assert r <==> Satisfied(All, resolved, m) by {
        if r {
          forall name | name in m ensures name in resolved && resolved[name] == m[name] {
            var i :| 0 <= i < |perms| && perms[i].0 == name;
            assert Matches(resolved, perms[i]);
          }
        } else {
          var i :| 0 <= i < |perms| && !Matches(resolved, perms[i]);
          assert perms[i].0 in m;
        }
      }
      r
    case Any =>
      var r := AnyMatch(resolved, perms);
      assert r <==> Satisfied(Any, resolved, m) by {
        if r {
          var i :| 0 <= i < |perms| && Matches(resolved, perms[i]);
          assert perms[i].0 in m;
        } else {
          forall name | name in m ensures !(name in resolved && resolved[name] == m[name]) {
            var i :| 0 <= i < |perms| && perms[i].0 == name;
            assert !Matches(resolved, perms[i]);
          }
        }
      }
      r
  }

  /** `check_permissions`: the owner passes; anyone else is judged on the
      permissions resolved for the current channel. */
  function CheckPermissions(ctx: Context, perms: Requirements, combine: Combine): (r: bool)
    ensures ctx.authorIsOwner ==> r
    ensures r <==> ctx.authorIsOwner || Satisfied(combine, ctx.channelPermissions, ToMap(perms))
  {
    if ctx.authorIsOwner then true
    else Evaluate(combine, ctx.channelPermissions, perms)
  }

  /** `check_guild_permissions`: the owner passes; outside a guild nobody
      else does; inside one the author's guild-wide permissions are judged,
      without channel overrides. */
  function CheckGuildPermissions(ctx: Context, perms: Requirements, combine: Combine): (r: bool)
    ensures ctx.authorIsOwner ==> r
    ensures !ctx.authorIsOwner && ctx.guild.None? ==> !r
    ensures r <==> ctx.authorIsOwner || (ctx.guild.Some? && Satisfied(combine, ctx.guild.value.authorPermissions, ToMap(perms)))
  {
    if ctx.authorIsOwner then true
    else if ctx.guild.None? then false
    else Evaluate(combine, ctx.guild.value.authorPermissions, perms)
  }

  /** The predicate a decorator attaches to a command, kept as the data its
      closure captures. */
  datatype Check =
    | ChannelCheck(perms: Requirements, combine: Combine)
    | GuildCheck(perms: Requirements, combine: Combine)
    | InGuildsCheck(guildIds: seq<int>)

  /** Calling the attached predicate on a context. */
  function Run(check: Check, ctx: Context): bool {
    match check
    case ChannelCheck(perms, combine) => CheckPermissions(ctx, perms, combine)
    case GuildCheck(perms, combine) => CheckGuildPermissions(ctx, perms, combine)
    case InGuildsCheck(ids) => ctx.guild.Some? && ctx.guild.value.id in ids
  }

  /** The predicate `is_mod` and `mod_or_permissions` treat as a moderator. */
  predicate IsModerator(ctx: Context) {
    ctx.guild.Some? && Lookup(ctx.guild.value.authorPermissions, ManageGuild) == Some(true)
  }

  /** The predicate `is_admin` and `admin_or_permissions` treat as an administrator. */
  predicate IsAdministrator(ctx: Context) {
    ctx.guild.Some? && Lookup(ctx.guild.value.authorPermissions, Administrator) == Some(true)
  }

  /** `has_permissions(check=..., **perms)`. */
  function HasPermissions(combine: Combine, perms: Requirements): (c: Check)
    ensures forall ctx :: Run(c, ctx) <==> ctx.authorIsOwner || Satisfied(combine, ctx.channelPermissions, ToMap(perms))
  {
    ChannelCheck(perms, combine)
  }

  /** `has_guild_permissions(check=..., **perms)`. */
  function HasGuildPermissions(combine: Combine, perms: Requirements): (c: Check)
    ensures forall ctx :: Run(c, ctx) <==>
      ctx.authorIsOwner || (ctx.guild.Some? && Satisfied(combine, ctx.guild.value.authorPermissions, ToMap(perms)))
  {
    GuildCheck(perms, combine)
  }

  /** `is_mod()`: the guild-wide `manage_guild` permission, or the owner. */
  function IsMod(): (c: Check)
    ensures forall ctx :: Run(c, ctx) <==> ctx.authorIsOwner || IsModerator(ctx)
  {
    var perms: Requirements := [(ManageGuild, true)];
    assert ToMap(perms) == map[ManageGuild := true];
    GuildCheck(perms, All)
  }

  /** `is_admin()`: the guild-wide `administrator` permission, or the owner. */
  function IsAdmin(): (c: Check)
    ensures forall ctx :: Run(c, ctx) <==> ctx.authorIsOwner || IsAdministrator(ctx)
  {
    var perms: Requirements := [(Administrator, true)];
    assert ToMap(perms) == map[Administrator := true];
    GuildCheck(perms, All)
  }

  /** `mod_or_permissions(**perms)`: `manage_guild` is set to true in the
      caller's requirements (overwriting a value the caller gave it), and
      the result is combined with `any`. */
  function ModOrPermissions(perms: Requirements): (c: Check)
    ensures c.GuildCheck? && c.combine == Any
    ensures ToMap(c.perms) == ToMap(perms)[ManageGuild := true]
    ensures forall ctx :: IsModerator(ctx) ==> Run(c, ctx)
  {
    GuildCheck(SetItem(perms, ManageGuild, true), Any)
  }

  /** `admin_or_permissions(**perms)`: as `mod_or_permissions`, with
      `administrator` as the forced alternative. */
  function AdminOrPermissions(perms: Requirements): (c: Check)
    ensures c.GuildCheck? && c.combine == Any
    ensures ToMap(c.perms) == ToMap(perms)[Administrator := true]
    ensures forall ctx :: IsAdministrator(ctx) ==> Run(c, ctx)
  {
    GuildCheck(SetItem(perms, Administrator, true), Any)
  }

  /** `is_in_guilds(*guild_ids)`: only the guild decides; there is no owner
      bypass and outside a guild the answer is no. */
  function IsInGuilds(guildIds: seq<int>): (c: Check)
    ensures forall ctx :: Run(c, ctx) <==> ctx.guild.Some? && ctx.guild.value.id in guildIds
  {
    InGuildsCheck(guildIds)
  }

  /** The `try` body of `embed_perms`: the author's permissions in the
      message's channel (None when they cannot be resolved), then their
      `embed_links` attribute (None when it is missing). */
  function ResolveEmbedLinks(resolution: Option<Permissions>): Option<bool> {
    if resolution.None? then None else Lookup(resolution.value, EmbedLinks)
  }

  /** `embed_perms(message)`: fails open. It says no only when the
      permissions were resolved and say `embed_links` is false. */
  function EmbedPerms(resolution: Option<Permissions>): (r: bool)
    ensures resolution.None? ==> r
    ensures resolution.Some? && EmbedLinks in resolution.value ==> r == resolution.value[EmbedLinks]
    ensures !r <==> resolution.Some? && EmbedLinks in resolution.value && !resolution.value[EmbedLinks]
  {
    match ResolveEmbedLinks(resolution)
    case Some(allowed) => allowed
    case None => true
  }

  /** A requirement mapping with no entries: `all` of nothing is true and
      `any` of nothing is false, while the guild check still refuses a
      non-owner outside a guild. */
  lemma EmptyRequirements(ctx: Context)
    ensures CheckPermissions(ctx, [], All)
    ensures CheckPermissions(ctx, [], Any) <==> ctx.authorIsOwner
    ensures CheckGuildPermissions(ctx, [], All) <==> ctx.authorIsOwner || ctx.guild.Some?
    ensures CheckGuildPermissions(ctx, [], Any) <==> ctx.authorIsOwner
  {
    assert ToMap<string, bool>([]) == map[];
  }

  /** A required name that the resolved set lacks stands for `None`, which
      equals neither true nor false: its entry never matches. Under `all` the
      requirements then fail; under `any` they hold exactly when the other
      entries do. */
  lemma {:induction false} MissingNameNeverMatches(resolved: Permissions, required: map<string, bool>, name: string)
    requires name in required && name !in resolved
    ensures forall value: bool :: Lookup(resolved, name) != Some(value)
    ensures !Satisfied(All, resolved, required)
    ensures Satisfied(Any, resolved, required) <==> Satisfied(Any, resolved, required - {name})
  {
    var rest := required - {name};
    if Satisfied(Any, resolved, required) {
      var n :| n in required && n in resolved && resolved[n] == required[n];
      assert n != name && n in rest;
    }
    if Satisfied(Any, resolved, rest) {
      var n :| n in rest && n in resolved && resolved[n] == rest[n];
      assert n in required;
    }
  }

  /** For a non-owner, a required permission missing from the resolved set
      fails every `all` check, channel or guild, whatever value was required,
      and under `any` leaves the answer to the other requirements. */
  lemma MissingPermissionFails(ctx: Context, perms: Requirements, name: string)
    requires !ctx.authorIsOwner && name in ToMap(perms)
    ensures name !in ctx.channelPermissions ==>
      !CheckPermissions(ctx, perms, All) &&
      (CheckPermissions(ctx, perms, Any) <==> Satisfied(Any, ctx.channelPermissions, ToMap(perms) - {name}))
    ensures ctx.guild.Some? && name !in ctx.guild.value.authorPermissions ==>
      !CheckGuildPermissions(ctx, perms, All) &&
      (CheckGuildPermissions(ctx, perms, Any) <==> Satisfied(Any, ctx.guild.value.authorPermissions, ToMap(perms) - {name}))
  {
    if name !in ctx.channelPermissions {
      MissingNameNeverMatches(ctx.channelPermissions, ToMap(perms), name);
    }
    if ctx.guild.Some? && name !in ctx.guild.value.authorPermissions {
      MissingNameNeverMatches(ctx.guild.value.authorPermissions, ToMap(perms), name);
    }
  }

  /** The channel check has no guild guard: in a direct message a non-owner
      can still pass it, where the guild check with the same requirements
      refuses. */
  lemma ChannelCheckHasNoGuildGuard(ctx: Context, perms: Requirements, combine: Combine)
    requires !ctx.authorIsOwner && ctx.guild.None?
    ensures !CheckGuildPermissions(ctx, perms, combine)
    ensures CheckPermissions(ctx, perms, combine) <==> Satisfied(combine, ctx.channelPermissions, ToMap(perms))
  {
  }

  /** What `mod_or_permissions(**perms)` admits: the owner; in a guild, a
      moderator, or anyone matching one of the caller's other requirements.
      A caller's own `manage_guild` entry counts for nothing, since it is
      overwritten with true. */
  lemma ModOrPermissionsMeaning(perms: Requirements, ctx: Context)
    ensures Run(ModOrPermissions(perms), ctx) <==>
      ctx.authorIsOwner ||
      (ctx.guild.Some? &&
        (IsModerator(ctx) || OtherRequirementMet(ctx.guild.value.authorPermissions, ToMap(perms), ManageGuild)))
  {
    ForcedAlternative(perms, ManageGuild, ctx);
  }

  /** As ModOrPermissionsMeaning, for `admin_or_permissions(**perms)`. */
  lemma AdminOrPermissionsMeaning(perms: Requirements, ctx: Context)
    ensures Run(AdminOrPermissions(perms), ctx) <==>
      ctx.authorIsOwner ||
      (ctx.guild.Some? &&
        (IsAdministrator(ctx) || OtherRequirementMet(ctx.guild.value.authorPermissions, ToMap(perms), Administrator)))
  {
    ForcedAlternative(perms, Administrator, ctx);
  }

  /** Some requirement other than `forced` is met. */
  ghost predicate OtherRequirementMet(resolved: Permissions, required: map<string, bool>, forced: string) {
    exists name | name in required && name != forced :: name in resolved && resolved[name] == required[name]
  }

  lemma ForcedAlternative(perms: Requirements, forced: string, ctx: Context)
    ensures CheckGuildPermissions(ctx, SetItem(perms, forced, true), Any) <==>
      ctx.authorIsOwner ||
      (ctx.guild.Some? &&
        (Lookup(ctx.guild.value.authorPermissions, forced) == Some(true) ||
         OtherRequirementMet(ctx.guild.value.authorPermissions, ToMap(perms), forced)))
  {
    if !ctx.authorIsOwner && ctx.guild.Some? {
      var resolved, m := ctx.guild.value.authorPermissions, ToMap(perms)[forced := true];
      if Satisfied(Any, resolved, m) && Lookup(resolved, forced) != Some(true) {
        var name :| name in m && name in resolved && resolved[name] == m[name];
        assert name != forced;
      }
      if OtherRequirementMet(resolved, ToMap(perms), forced) {
        var name :| name in ToMap(perms) && name != forced && name in resolved && resolved[name] == ToMap(perms)[name];
        assert name in m;
      }
    }
  }
}
