/**
 * The launcher's pure rules on strings: the platform badge of a game path,
 * the account-name check of the sign-up screen, the `user_<name>.json`
 * account files and their parse, and the choice of one metadata search hit.
 */
module Rules {
  import opened Wrappers
  import opened Text

  // ---------------------------------------------------------------- platform

  /** The store a game executable belongs to, as shown in the list's platform column. */
  datatype Platform = Steam | Xbox | Pirated

  function Label(p: Platform): string {
    match p
    case Steam => "Steam"
    case Xbox => "Xbox"
    case Pirated => "Pirated"
  }

  /** `Launcher.get_platform`: the path is matched after lower-casing it. */
  function GetPlatform(path: string): Platform {
    var lowered := Lower(path);
    if Contains(lowered, "steam") && Contains(lowered, "steamapps") then Steam
    else if Contains(lowered, "xboxgames") then Xbox
    else Pirated
  }

  /**
   * The classification in terms of the two markers: a Steam path is exactly one whose
   * lower-cased form contains "steamapps" (the "steam" test is implied and never decides),
   * whatever else it contains; "xboxgames" decides only when "steamapps" is absent.
   */
  lemma PlatformClassification(path: string)
    ensures GetPlatform(path) == Steam <==> Contains(Lower(path), "steamapps")
    ensures GetPlatform(path) == Xbox
      <==> !Contains(Lower(path), "steamapps") && Contains(Lower(path), "xboxgames")
    ensures GetPlatform(path) == Pirated
      <==> !Contains(Lower(path), "steamapps") && !Contains(Lower(path), "xboxgames")
  {
    if Contains(Lower(path), "steamapps") {
      assert "steamapps" == "steam" + "apps";
      ContainsPrefixOf(Lower(path), "steam", "apps");
    }
  }

  /** The badge depends on the path only through its lower-cased form. */
  lemma PlatformOfLowered(path: string)
    ensures GetPlatform(Lower(path)) == GetPlatform(path)
  {
    LowerIdempotent(path);
  }

  // ---------------------------------------------------------------- accounts

  /** Names the sign-up screen refuses, compared after lower-casing. */
  const ReservedNames: set<string> := {"admin", "system", "guest"}

  /**
   * The check in `login.make`: the entry is stripped, and refused when it is blank
   * or a reserved name in any letter case; otherwise the stripped name is the account.
   */
  function AccountName(entry: string): (r: Option<string>)
    ensures r.None? <==>
      (forall i :: 0 <= i < |entry| ==> IsSpace(entry[i])) || Lower(Strip(entry)) in ReservedNames
    ensures r.Some? ==>
      && r.value == Strip(entry) && r.value != []
      && !IsSpace(r.value[0]) && !IsSpace(r.value[|r.value| - 1])
      && Lower(r.value) !in ReservedNames
  {
    StripBlankIff(entry);
    var n := Strip(entry);
    if n == [] || Lower(n) in ReservedNames then None else Some(n)
  }

  /** An accepted account name is accepted again unchanged when entered as it is. */
  lemma AccountNameStable(entry: string, n: string)
    requires AccountName(entry) == Some(n)
    ensures AccountName(n) == Some(n)
  {
    StripFixpoint(n);
  }

  /** The file an account is saved to: `f"user_{n}.json"`. */
  function UserFileName(n: string): string {
    "user_" + n + ".json"
  }

  /** One file of the sign-in list: `f[5:-5]` of a file named `user_*.json`. */
  function ParseUserFile(f: string): Option<string> {
    if StartsWith(f, "user_") && EndsWith(f, ".json") then Some(PySlice(f, 5, -5)) else None
  }

  /** The slice `f[5:-5]` gives back every name the account file was made from. */
  lemma UserFileRoundTrip(n: string)
    ensures ParseUserFile(UserFileName(n)) == Some(n)
  {
    var f := UserFileName(n);
    assert f[..5] == "user_";
    assert f[|f| - 5..] == ".json";
    assert f[5..|f| - 5] == n;
  }

  /**
   * The converse: a file that parses to `n` is exactly `user_{n}.json`
   * (the prefix and the suffix cannot overlap, so every such file has 10 characters or more).
   */
  lemma ParseUserFileExact(f: string, n: string)
    requires ParseUserFile(f) == Some(n)
    ensures f == UserFileName(n)
  {
    assert f[..5] == "user_" && f[|f| - 5..] == ".json";
    // The suffix begins with '.', which no character of the prefix is.
    assert f[|f| - 5] == '.';
    assert forall i :: 0 <= i < 5 ==> f[i] == "user_"[i] != '.';
    assert n == f[5..|f| - 5];
    assert f == f[..5] + f[5..|f| - 5] + f[|f| - 5..];
  }

  /** The sign-in list: `[f[5:-5] for f in files if f.startswith("user_") and f.endswith(".json")]`. */
  function ListUsers(files: seq<string>): seq<string> {
    if files == [] then []
    else
      (match ParseUserFile(files[0])
       case Some(n) => [n]
       case None => []) + ListUsers(files[1..])
  }

  /** A name is offered for sign-in exactly when its account file is in the directory. */
  lemma {:induction false} ListUsersIff(files: seq<string>, n: string)
    ensures n in ListUsers(files) <==> UserFileName(n) in files
  {
    if files != [] {
      ListUsersIff(files[1..], n);
      UserFileRoundTrip(n);
      match ParseUserFile(files[0])
      case Some(m) =>
        ParseUserFileExact(files[0], m);
        assert n in ListUsers(files) <==> n == m || n in ListUsers(files[1..]);
      case None =>
        assert files[0] != UserFileName(n);
      assert files == [files[0]] + files[1..];
    }
  }

  /** The games file of a profile: `f"{p}_games.json"`, kept in the same directory. */
  function GamesFileName(profile: string): string {
    profile + "_games.json"
  }

  /**
   * The sign-in list reads every `user_*.json` file, so the games file of a profile
   * whose name starts with "user_" is offered as an account too.
   */
  lemma ProfileFileReadAsAccount(profile: string)
    requires StartsWith(profile, "user_")
    ensures ParseUserFile(GamesFileName(profile)) == Some(profile[5..] + "_games")
  {
    var f := GamesFileName(profile);
    assert f == UserFileName(profile[5..] + "_games") by {
      assert profile == "user_" + profile[5..];
    }
    UserFileRoundTrip(profile[5..] + "_games");
  }

  // ---------------------------------------------------------------- search hits

  /** `next((g for g in hits if g.name.lower() == query.lower()), None)`, as an index. */
  function ExactMatch(query: string, names: seq<string>): (r: Option<nat>)
    ensures r.Some? ==>
      && r.value < |names| && Lower(names[r.value]) == Lower(query)
      && forall j :: 0 <= j < r.value ==> Lower(names[j]) != Lower(query)
    ensures r.None? ==> forall j :: 0 <= j < |names| ==> Lower(names[j]) != Lower(query)
  {
    if names == [] then None
    else if Lower(names[0]) == Lower(query) then Some(0)
    else
      match ExactMatch(query, names[1..])
      case None => None
      case Some(i) => Some(i + 1)
  }

  /**
   * The hit `scrape` describes, given the hits' names in the provider's order:
   * none when the search came back empty; otherwise the first hit whose name equals
   * the query ignoring case, and the first hit when no name does.
   */
  function ChooseResult(query: string, names: seq<string>): (r: Option<nat>)
    ensures r.None? <==> names == []
    ensures r.Some? ==> r.value < |names|
    ensures r.Some? && Lower(names[r.value]) != Lower(query) ==>
      r.value == 0 && forall j :: 0 <= j < |names| ==> Lower(names[j]) != Lower(query)
    ensures r.Some? && Lower(names[r.value]) == Lower(query) ==>
      forall j :: 0 <= j < r.value ==> Lower(names[j]) != Lower(query)
  {
    if names == [] then None
    else
      match ExactMatch(query, names)
      case Some(i) => Some(i)
      case None => Some(0)
  }
}
