# Pirate Launcher: a Dafny model of the launcher's list and profile logic

Pirate Launcher is a tkinter desktop launcher. It keeps a list of game executables
per profile, labels each game by store (Steam, Xbox or pirated copy), fetches
descriptions from web APIs, and has a simple account / profile system. This
project models the parts of `pirate_launcher.py` that are logic rather than UI,
network or file I/O:

- **the game registry** (`self.games`, a list of `{name, path}` records). It covers
  adding a game with its blank-name and duplicate-path checks, the refresh that
  sorts by lower-cased name, removing the selected row, and clearing the list.
- **the profile list** (`self.profiles`, `self.current`). It covers creating,
  switching to, deleting and clearing all profiles.
- **the pure string rules.** These are the platform badge of a path, the account-name
  check, the `user_<name>.json` account files and their `f[5:-5]` parse, and the
  choice of one metadata search hit.

Files:

- `text.dfy` (module `Text`): the Python string built-ins the rules rely on.
  - `str.strip()` uses Python's full `isspace` set.
  - `str.lower()` is modelled for ASCII letters only.
  - Also `startswith`, `endswith`, the substring test `in`, slicing with negative
    indices, and string comparison by code point.
- `rules.dfy` (module `Rules`): `get_platform`, the account-name check of `login.make`,
  the account file name and its parse, the sign-in list, and the search-hit choice in `scrape`.
- `registry.dfy` (module `Registry`): games and profile names as sequences, with:
  - the "no two paths equal ignoring case" invariant;
  - `del l[i]` and `l.remove(x)`;
  - the stable sort by lower-cased name.
- `launcher.dfy` (module `LauncherState`): class `Launcher`, with fields `games`, `profiles`
  and `current`. Its methods change these fields in place, as the source's methods do.
  Module `ClearAllScenarios` holds two verified scenarios for the finding below.
- `wrappers.dfy`: the `Option` type.

Modelling choices:

- Dialog answers become method parameters.
  - A cancelled `askstring` or `askopenfilename` is the empty string. The source
    treats `None` and `""` alike at each of these call sites.
  - A yes/no box is a `bool`.
  - The selected tree row is an `Option<nat>`. The tree lists the games in list
    order, so a row's position is the game's index.
- `os.path.exists(initial_dir)` becomes the parameter `folderExists`.
- `load_ui` runs again after every profile switch. The documents it reads back are
  parameters:
  - `loaded` stands for the games file of the new profile.
  - The settings it reloads were saved by the switch itself. The profile list it
    reloads equals the in-memory one: `new_profile` and `del_profile` save it after
    each change, and after `clear_all` deleted it, the default `["Default"]` is
    exactly the list `clear_all` set.
- `Valid()` is the state invariant:
  - `current` is a listed profile;
  - no profile is listed twice;
  - no two games share a path ignoring case;
  - the games are in the order `update_list` leaves them.

  Every method keeps it. The ones that load a games file keep it when that file
  itself has no duplicate paths.
- Python's `list.sort` is stable. A stable sort by a key has exactly one result, so
  the model computes it by insertion sort. Its properties are proved as lemmas:
  - the result is ordered;
  - it is a permutation of the input;
  - games with the same lower-cased name keep their relative order;
  - sorting an ordered list changes nothing.
- The source's project description also tells of a playtime tracker, session state,
  an overlay and Steam playtime reconciliation. None of that exists in
  `pirate_launcher.py`. The model follows the code, and these parts are not modelled.
- The sign-in list reads every `user_*.json` file in the data directory. The games
  file of a profile named `user_x` is `user_x_games.json`, so it is offered as the
  account `x_games`. `Rules.ProfileFileReadAsAccount` states this.
- `del_profile` tests and deletes `{p}_games.json` relative to the working directory,
  while `save` and `load` put that file in the data directory. So a deleted profile's
  games file stays, and a profile created again under the same name gets its old
  games back. The model does not constrain the `loaded` games of `NewProfile`, so
  it allows this outcome.

## Model

| member | source | states |
|---|---|---|
| `Rules.GetPlatform` | pirate_launcher.py:171-178 | definition: lower-case the path; Steam when it contains both "steam" and "steamapps", else Xbox when it contains "xboxgames", else Pirated |
| `Rules.Label` | pirate_launcher.py:174-178 | definition: the badge texts "Steam", "Xbox" and "Pirated" |
| `Rules.UserFileName` | pirate_launcher.py:257 | definition: the account file `"user_" + n + ".json"` |
| `Rules.ParseUserFile` | pirate_launcher.py:266 | definition: a file passing `startswith("user_")` and `endswith(".json")` yields `f[5:-5]`; every other file yields nothing |
| `Rules.ListUsers` | pirate_launcher.py:266 | definition: the comprehension, the parsed names of the accepted files in listing order |
| `Rules.GamesFileName` | pirate_launcher.py:224 | definition: a profile's games file `p + "_games.json"` |
| `Rules.PlatformClassification` | pirate_launcher.py:171-178 | a path is Steam exactly when its lower-cased form contains "steamapps", whatever else it contains; Xbox exactly when it contains "xboxgames" but not "steamapps"; Pirated otherwise |
| `Rules.PlatformOfLowered` | pirate_launcher.py:172 | the badge depends on the path only through its lower-cased form |
| `Rules.AccountName` | pirate_launcher.py:253-256 | an entry is refused exactly when it is all whitespace or its stripped, lower-cased form is "admin", "system" or "guest"; an accepted name is the stripped entry, non-empty, with no surrounding whitespace and not reserved in any case |
| `Rules.AccountNameStable` | pirate_launcher.py:253-254 | an accepted name, entered again as it is, is accepted unchanged |
| `Rules.UserFileRoundTrip` | pirate_launcher.py:257-266 | the slice `f[5:-5]` of `user_{n}.json` yields `n` again, for every `n` |
| `Rules.ParseUserFileExact` | pirate_launcher.py:266 | a file that parses to `n` is exactly `user_{n}.json` (prefix and suffix never overlap) |
| `Rules.ListUsersIff` | pirate_launcher.py:266 | a name is in the sign-in list exactly when its account file is in the directory listing |
| `Rules.ProfileFileReadAsAccount` | pirate_launcher.py:266 | the games file of a profile whose name starts with "user_" is listed as an account |
| `Rules.ExactMatch` | pirate_launcher.py:374 | gives the first hit whose lower-cased name equals the lower-cased query, or none when no hit matches |
| `Rules.ChooseResult` | pirate_launcher.py:372-375 | no hit for an empty search; else the first hit whose name equals the query ignoring case, and hit 0 when none does (the Steam search at lines 389-392 makes the same choice) |
| `Text.Strip` | pirate_launcher.py:217-218 | `str.strip()`: the result is a slice of the input with only whitespace before and after it, and it neither starts nor ends with whitespace |
| `Text.Lower` | pirate_launcher.py:172 | definition: `str.lower()` letter by letter, ASCII letters only; same length as the input |
| `Text.Contains` | pirate_launcher.py:173 | definition: the substring test `sub in s`, recursively: a prefix here or anywhere in the rest |
| `Text.ContainsAt` | pirate_launcher.py:173 | `sub in s` holds exactly when `sub` starts at some position of `s`, the meaning of Python's `in` |
| `Text.StrLe` | pirate_launcher.py:183 | definition: Python's `<=` on strings, lexicographic by code point with a prefix first |
| `Text.PySlice` | pirate_launcher.py:266 | definition: `s[start:stop]` with negative indices counted from the end, both ends clamped, a reversed range empty |
| `Text.StripBlankIff` | pirate_launcher.py:217 | `not n.strip()` holds exactly when every character of `n` is whitespace |
| `Registry.RemoveAt` | pirate_launcher.py:435 | `del s[i]` drops exactly element `i`: it is one shorter, keeps the elements before `i` in place and shifts the later ones down by one |
| `Registry.FirstIndex` | pirate_launcher.py:322 | the position `list.remove` works on: it holds `x`, and no earlier position does |
| `Registry.RemoveFirst` | pirate_launcher.py:322 | `list.remove(x)` takes out the first `x` only: one shorter, same multiset minus `x`, the elements before that first `x` in place, the later ones shifted down by one |
| `Registry.NoDup` | pirate_launcher.py:304-305 | definition: no profile name occurs twice |
| `Registry.NoDupAppend` | pirate_launcher.py:304-305 | appending a name not yet listed keeps the profile list duplicate-free |
| `Registry.RemoveFirstNoDup` | pirate_launcher.py:320-322 | removing a profile from a duplicate-free list removes it altogether, keeps every other profile and stays duplicate-free |
| `Registry.PathTaken` | pirate_launcher.py:219 | definition: `any(g.path.lower() == p.lower() for g in games)` |
| `Registry.DistinctPaths` | pirate_launcher.py:219-223 | definition: the registry invariant, no two games whose paths are equal ignoring case |
| `Registry.DistinctPathsAppend` | pirate_launcher.py:219-223 | appending a game whose path is not taken ignoring case keeps the no-duplicate-path invariant |
| `Registry.DistinctPathsRemoveAt` | pirate_launcher.py:435 | deleting one game keeps the no-duplicate-path invariant |
| `Registry.NameKey` | pirate_launcher.py:183 | definition: the sort key `x["name"].lower()` |
| `Registry.SortedByName` | pirate_launcher.py:183 | definition: every earlier game's key is `<=` every later game's key |
| `Registry.InsertByName` | pirate_launcher.py:183 | inserting one game adds exactly that game to the multiset |
| `Registry.SortByName` | pirate_launcher.py:183 | sorting is a permutation of the games |
| `Registry.SortByNameSorted` | pirate_launcher.py:183 | the sorted list is ordered by lower-cased name, in Python's string order |
| `Registry.SortByNameStable` | pirate_launcher.py:183 | games sharing a lower-cased name keep their relative order (the sort is stable) |
| `Registry.SortByNameIdempotent` | pirate_launcher.py:183 | sorting a sorted list changes nothing |
| `Registry.SortByNameDistinct` | pirate_launcher.py:183 | sorting keeps the no-duplicate-path invariant |
| `Registry.RemoveAtSorted` | pirate_launcher.py:435-437 | deleting from an ordered list leaves it ordered, so the refresh after a removal moves nothing |
| `LauncherState.Launcher.Valid` | pirate_launcher.py:302-340 | definition: the state every action keeps; `current` listed, profiles duplicate-free, paths distinct ignoring case, games in display order |
| `LauncherState.Launcher.Load` | pirate_launcher.py:61-74 | each saved document or its default (`["Default"]`, "Default", no games); the games then ordered; a first start is a valid state |
| `LauncherState.Launcher.UpdateList` | pirate_launcher.py:180-188 | the games become their sort by lower-cased name, ordered, with distinct paths kept; nothing else changes, and a valid state is left as it is |
| `LauncherState.Launcher.AddFromDir` | pirate_launcher.py:210-225 | gives each refusal exactly when it applies: missing folder, no file chosen, blank name, path already taken ignoring case. Otherwise it appends exactly `{strip(name), path}` and re-sorts; profiles are unchanged and the invariant is kept |
| `LauncherState.Launcher.Remove` | pirate_launcher.py:429-437 | removes exactly when a row inside the list is selected and confirmed. On a valid state exactly that game goes and the others keep their order; otherwise nothing changes |
| `LauncherState.Launcher.ClearGames` | pirate_launcher.py:328-332 | once confirmed the games list is empty; nothing else changes |
| `LauncherState.Launcher.SwitchProfile` | pirate_launcher.py:309-315 | switches exactly when the name is non-empty, listed and not the current profile, and then shows that profile's games. The profile list never changes |
| `LauncherState.Launcher.NewProfile` | pirate_launcher.py:302-307 | creates exactly when the stripped name is non-blank and new, appending it and switching to it; the list stays duplicate-free and `current` listed |
| `LauncherState.Launcher.DelProfile` | pirate_launcher.py:317-326 | deletes exactly when more than one profile exists and the confirmed name is listed and not current. The list then shrinks by one, loses that name, and keeps `current` |
| `LauncherState.Launcher.ClearAllAsWritten` | pirate_launcher.py:334-340 | once confirmed, the profiles are `["Default"]` and the current profile is "Default". The games are emptied only when the current profile was another one |
| `LauncherState.Launcher.ClearAll` | pirate_launcher.py:334-340 | once confirmed, the profiles are `["Default"]`, the current profile is "Default" and no games are left, whatever the profile was |
| `ClearAllScenarios.ClearAllKeepsDefaultGames` | pirate_launcher.py:334-340 | starting on "Default" with one saved game, the as-written "Delete ALL data" still lists that game |
| `ClearAllScenarios.ClearAllEmptiesDefaultGames` | pirate_launcher.py:334-340 | the same scenario with the corrected clear leaves no game |

## Left out

- The tkinter UI is not modelled. That covers widget construction, the theme colours
  and `toggle_theme`, window centring, message boxes, `select`, `select_first_game`,
  `show` and the status line of `update_list`. Only its inputs appear, as parameters.
- The HTTP calls to RAWG and the Steam store and community, and the image download
  and thumbnailing in `scrape`, are network and foreign libraries. Only the choice of
  one hit from the returned list is modelled, given the hits' names in order.
- The cache is not modelled: `self.cache`, `pending_scrapes`, `scrape_and_cache` and
  its background threads are network and concurrency.
- The JSON `load` and `save` helpers, the file deletions in `del_profile` and `clear_all`,
  and `os.listdir` are file I/O. Loaded documents are parameters, saving is absent, and
  a directory listing is a sequence of names.
- `launch` starts a process with `subprocess.Popen` and is not modelled.
- The sign-in half of `login` (`signin`, and the default choice `users[0]`) only writes
  `user.json` and reloads the UI. The model keeps only the sign-in list it shows.
- `Text.Lower` models `str.lower()` for ASCII letters only. Full Unicode case mapping
  is not modelled, so the case-insensitive comparisons are exact only for ASCII text.
- Games loaded from a file are always full `{name, path}` records. The source's
  `g.get("path", "")` fallback for a record without a path is not modelled.

## Findings

| source | as written | input that shows it | evidently intended | confidence | as-written member | corrected member |
|---|---|---|---|---|---|---|
| pirate_launcher.py:334-340 | `clear_all` deletes every saved file and then calls `switch_profile("Default")`. That reloads the games only when the current profile differs from "Default". | current profile "Default" with one game, "Delete ALL data?" confirmed: the game is still listed, and the next add or removal saves it again | after "Delete ALL data" no game is left, whichever profile was open | medium, not executed | `LauncherState.Launcher.ClearAllAsWritten` | `LauncherState.Launcher.ClearAll` |
