# sandy-bot permission checks and search-link extraction, in Dafny

This project models the core of `cogs/utils/checks.py` of the sandy-bot Discord bot:

- **Permission predicates.** Commands are gated by checks over an invocation
  context. The bot's owner always passes. Anyone else passes when the permissions
  resolved for them match a set of required `name=value` pairs. The pairs are
  combined with `all` or `any`. The channel check (`check_permissions`) resolves
  permissions in the current channel. The guild check (`check_guild_permissions`)
  refuses outside a guild and otherwise resolves guild-wide permissions. On top of
  these sit the decorators `has_permissions`, `has_guild_permissions`, `is_mod`,
  `is_admin`, `mod_or_permissions`, `admin_or_permissions` and `is_in_guilds`, plus
  the fail-open `embed_perms`.
- **Search-link extraction.** This is the loop of `get_google_entries` over the
  result containers of a search page. It keeps heading links that are internal
  redirects (`/url?…`). For each it takes the destination in the `q` query
  parameter, in document order.

Modules:

- `Wrappers` (`wrappers.dfy`): `Option` and `Result`.
- `Dicts` (`dicts.dfy`): an insertion-ordered dictionary, as Python's `dict` is. It
  models the `**perms` keyword dictionary: its iteration order, and the
  `perms[key] = True` assignment. That assignment keeps an existing key in place and
  appends a new one.
- `Checks` (`checks.dfy`): the permission predicates. A context is the owner
  oracle's answer, the author's channel permissions, and an optional guild (its id and
  the author's guild-wide permissions). A resolved permission set is a
  `map<string, bool>`. A name missing from it is `getattr`'s `None` default, which
  equals no boolean. `all`/`any` over the generator are short-circuiting recursive
  functions over the requirements in dictionary order. `Satisfied` is the reference
  meaning, stated on the mapping alone. A decorator's result is the `Check` datatype
  (the data its closure captures), and `Run` calls it on a context.
- `Search` (`search.dfy`): the link-extraction loop as an imperative method. It is
  proved equal to the specification function `Entries`, and lemmas about `Entries`
  give order, skipping, error and length properties.

## Model

| member | source | states |
|---|---|---|
| Dicts.SetItem | cogs/utils/checks.py:65 | `perms[key] = True`: the resulting mapping is the old one with `key` set; an existing key keeps its position, a new key is appended at the end |
| Checks.AllMatch | cogs/utils/checks.py:29 | `all` over the per-requirement tests is true iff every test in the sequence succeeds |
| Checks.AnyMatch | cogs/utils/checks.py:29 | `any` over the per-requirement tests is true iff some test in the sequence succeeds |
| Checks.Evaluate | cogs/utils/checks.py:45 | the generator fed to `all`/`any` is true iff the requirement mapping is `Satisfied`: under `all` every required name is resolved to exactly its value, under `any` at least one is |
| Checks.CheckPermissions | cogs/utils/checks.py:23-29 | the owner always passes; otherwise the result is whether the channel permissions satisfy the requirements |
| Checks.CheckGuildPermissions | cogs/utils/checks.py:36-45 | the owner always passes; a non-owner outside a guild never passes; otherwise the result is whether the guild-wide permissions satisfy the requirements |
| Checks.HasPermissions | cogs/utils/checks.py:31-34 | the attached predicate admits exactly the owner and those whose channel permissions satisfy the requirements |
| Checks.HasGuildPermissions | cogs/utils/checks.py:47-50 | the attached predicate admits exactly the owner and, in a guild, those whose guild permissions satisfy the requirements |
| Checks.IsMod | cogs/utils/checks.py:54-57 | admits exactly the owner and, in a guild, authors whose `manage_guild` is true |
| Checks.IsAdmin | cogs/utils/checks.py:59-62 | admits exactly the owner and, in a guild, authors whose `administrator` is true |
| Checks.ModOrPermissions | cogs/utils/checks.py:64-68 | a guild check combined with `any`, whose requirements are the caller's with `manage_guild` forced to true; every moderator in a guild passes |
| Checks.AdminOrPermissions | cogs/utils/checks.py:70-74 | a guild check combined with `any`, whose requirements are the caller's with `administrator` forced to true; every administrator in a guild passes |
| Checks.IsInGuilds | cogs/utils/checks.py:76-82 | admits exactly contexts with a guild whose id is listed; no owner bypass, and outside a guild the answer is no |
| Checks.EmbedPerms | cogs/utils/checks.py:84-90 | true when resolution fails; the resolved `embed_links` flag when it succeeds; false only when resolved and `embed_links` is false |
| Checks.EmptyRequirements | cogs/utils/checks.py:23-45 | with no requirements `all` passes and `any` fails for a non-owner; the guild check under `all` still needs a guild |
| Checks.MissingNameNeverMatches | cogs/utils/checks.py:29 | `getattr(resolved, name, None)` on a missing name equals neither true nor false: `all` fails, and `any` holds iff it holds without that entry |
| Checks.MissingPermissionFails | cogs/utils/checks.py:23-45 | for a non-owner, a required name missing from the resolved set fails every `all` check, channel and guild, whatever value was required; under `any` the other requirements decide |
| Checks.ChannelCheckHasNoGuildGuard | cogs/utils/checks.py:36-42 | outside a guild a non-owner fails every guild check, while the channel check still judges the channel permissions |
| Checks.ModOrPermissionsMeaning | cogs/utils/checks.py:64-68 | `mod_or_permissions` admits exactly the owner and, in a guild, moderators and anyone meeting one of the caller's other requirements; a caller-given `manage_guild` entry is ignored |
| Checks.AdminOrPermissionsMeaning | cogs/utils/checks.py:70-74 | the same for `admin_or_permissions` with `administrator` |
| Checks.ForcedAlternative | cogs/utils/checks.py:64-74 | an `any` guild check over requirements with one key forced to true passes iff the owner, or in a guild that key is resolved true or another requirement is met |
| Search.Classify | cogs/utils/checks.py:115-122 | a container is kept iff it has a heading link with an `href` that starts with `/url?` and whose rest has a `q` parameter, and the kept value is that parameter; it is skipped iff it has no heading link or its `href` is not a redirect; a heading link without `href` raises `MissingHref` and a redirect without `q` raises `MissingQuery`, at the container's own position |
| Search.CollectEntries | cogs/utils/checks.py:105-123 | the loop appending to `entries` returns exactly `Entries` of the nodes, including the error raised |
| Search.ErrorPersists | cogs/utils/checks.py:115-123 | once a container raises, the containers after it do not change the outcome |
| Search.EntriesLength | cogs/utils/checks.py:114-123 | there are at most as many entries as result containers |
| Search.EntriesSucceed | cogs/utils/checks.py:115-123 | extraction completes iff no container raises (a heading link without `href`, a redirect without `q`) |
| Search.EntriesFirstError | cogs/utils/checks.py:115-123 | when extraction raises, the error comes from the first container that raises |
| Search.EntriesInOrder | cogs/utils/checks.py:114-123 | the entries are the targets of the kept containers, in increasing document position, one per kept container (no deduplication); every other container was skipped |
| Search.TwoResultsExample | cogs/utils/checks.py:114-123 | two redirect results around a container without a heading link and an ad link give exactly the two destinations, in page order |

## Left out

- Owner oracle: `ctx.bot.is_owner` is awaited I/O. Its answer is the `authorIsOwner` field of the context.
- Permission resolution: `permissions_for`, `guild_permissions` and `permissions_in` belong to the Discord library. Their results are inputs, as a `map<string, bool>`. A Python `Permissions` object also has non-flag attributes such as `value`, and comparing those with a boolean is not modelled.
- Requirement values: they are booleans. Python accepts any keyword value, and compares it with `==`.
- Registration and scheduling: `commands.check` registration and async scheduling are framework behaviour. A decorator's result is the `Check` value it would register.
- `mod_or_permissions` / `admin_or_permissions`: these mutate the keyword dictionary in place. It is a fresh dictionary for each call, so the model computes the updated dictionary as a value (`Dicts.SetItem`). No aliasing is lost.
- `embed_perms`: "any exception" is a resolution that yields no permission set, or a set without `embed_links`. The kind of exception is not modelled.
- Network: the HTTP requests, session creation and lifecycle, query parameters and headers (cogs/utils/checks.py:94-106) are not modelled.
- Fallback search: the JSON custom-search fallback on a non-200 status (cogs/utils/checks.py:107-110) is network I/O plus JSON parsing and is not modelled.
- HTML parsing: lxml/XPath (`findall`, `find('.//h3/a')`) is replaced by the abstract sequence of result containers. The BeautifulSoup branch taken on `NameError` (cogs/utils/checks.py:2-5, 124-134) is not modelled.
- URL decoding: `parse_qs(...)['q'][0]` is a function parameter from the text after the prefix to an optional target. `None` stands for the `KeyError` of a missing `q`. `quote_plus` and `uriquote` are not modelled.
- Return shape: `get_google_entries` also returns the parsed document root. The model returns only the entries, or the error that escapes the loop.
