/**
 * The launcher window's state: the registered games of the current profile,
 * the profile names and the current profile, with the menu and button actions
 * that change them. Dialog answers are parameters: a cancelled text or file
 * dialog is the empty string (Python treats `None` and `""` alike there), a
 * yes/no dialog is a `bool`, and the row selected in the list is an optional
 * index. Every document that `load_ui` reads back after a profile switch is a
 * parameter too; saving is not modelled.
 */
module LauncherState {
  import opened Wrappers
  import opened Text
  import opened Registry

  /** How `add_from_dir` ended: a warning, a silent return, or the name it added. */
  datatype AddOutcome = FolderMissing | NoFileChosen | BlankName | AlreadyAdded | Added(name: string)

  class Launcher {
    var games: seq<Game>
    var profiles: seq<string>
    var current: string

    /**
     * What every action keeps: the current profile is one of the profiles, no profile
     * is listed twice, no two games share a path ignoring case, and the games are in
     * the order the list shows them (by lower-cased name).
     */
    predicate Valid()
      reads this
    {
      current in profiles && NoDup(profiles) && DistinctPaths(games) && SortedByName(games)
    }

    /**
     * `load_ui`: the saved profile list, current profile and games of the current
     * profile, each replaced by its default when its file is missing; the games
     * are then ordered by `update_list`.
     */
    constructor Load(savedProfiles: Option<seq<string>>, savedProfile: Option<string>,
                     savedGames: Option<seq<Game>>)
      ensures profiles == (if savedProfiles.Some? then savedProfiles.value else ["Default"])
      ensures current == (if savedProfile.Some? then savedProfile.value else "Default")
      ensures games == SortByName(if savedGames.Some? then savedGames.value else [])
      ensures savedProfiles.None? && savedProfile.None? && savedGames.None? ==> Valid()
    {
      profiles := if savedProfiles.Some? then savedProfiles.value else ["Default"];
      current := if savedProfile.Some? then savedProfile.value else "Default";
      games := SortByName(if savedGames.Some? then savedGames.value else []);
      SortByNameSorted(if savedGames.Some? then savedGames.value else []);
    }

    /** The sort step of `update_list`: the games are reordered by lower-cased name. */
    method UpdateList()
      modifies this
      ensures games == SortByName(old(games))
      ensures SortedByName(games)
      ensures DistinctPaths(old(games)) ==> DistinctPaths(games)
      ensures profiles == old(profiles) && current == old(current)
      ensures old(Valid()) ==> Valid() && games == old(games)
    {
      if DistinctPaths(games) {
        SortByNameDistinct(games);
      }
      if SortedByName(games) {
        SortByNameOfSorted(games);
      }
      SortByNameSorted(games);
      games := SortByName(games);
    }

    /**
     * `add_from_dir`: the folder must exist, a file must be chosen, and the entered
     * name must not be blank; the name is stripped, and a path already registered
     * (ignoring case) is refused. Otherwise the game is appended and the list refreshed.
     */
    method AddFromDir(folderExists: bool, chosenPath: string, enteredName: string)
      returns (outcome: AddOutcome)
      modifies this
      ensures outcome == FolderMissing <==> !folderExists
      ensures outcome == NoFileChosen <==> folderExists && chosenPath == ""
      ensures outcome == BlankName <==> folderExists && chosenPath != "" && Strip(enteredName) == ""
      ensures outcome == AlreadyAdded <==>
        folderExists && chosenPath != "" && Strip(enteredName) != "" && PathTaken(old(games), chosenPath)
      ensures outcome.Added? ==> outcome.name == Strip(enteredName)
      ensures outcome.Added? ==> games == SortByName(old(games) + [Game(outcome.name, chosenPath)])
      ensures !outcome.Added? ==> games == old(games)
      ensures profiles == old(profiles) && current == old(current)
      ensures old(Valid()) ==> Valid()
    {
      var n := Strip(enteredName);
      if !folderExists {
        outcome := FolderMissing;
      } else if chosenPath == "" {
        outcome := NoFileChosen;
      } else if n == "" {
        outcome := BlankName;
      } else if PathTaken(games, chosenPath) {
        outcome := AlreadyAdded;
      } else {
        var g := Game(n, chosenPath);
        if Valid() {
          DistinctPathsAppend(games, g);
        }
        games := games + [g];
        UpdateList();
        outcome := Added(n);
      }
    }

    /**
     * `remove`: with a row selected inside the list and the removal confirmed, that
     * game is deleted and the list refreshed; otherwise nothing changes. On a valid
     * state the refresh keeps the order, so exactly that game is gone and every
     * other keeps its place.
     */
    method Remove(selected: Option<nat>, confirmed: bool) returns (removed: bool)
      modifies this
      ensures removed <==> selected.Some? && selected.value < |old(games)| && confirmed
      ensures removed ==> games == SortByName(RemoveAt(old(games), selected.value))
      ensures removed && old(Valid()) ==> games == RemoveAt(old(games), selected.value)
      ensures !removed ==> games == old(games)
      ensures profiles == old(profiles) && current == old(current)
      ensures old(Valid()) ==> Valid()
    {
      removed := false;
      if selected.None? || selected.value >= |games| || !confirmed {
        return;
      }
      var idx := selected.value;
      if Valid() {
        DistinctPathsRemoveAt(games, idx);
        RemoveAtSorted(games, idx);
      }
      games := RemoveAt(games, idx);
      UpdateList();
      removed := true;
    }

    /** `clear_games`: once confirmed, the current profile has no games. */
    method ClearGames(confirmed: bool)
      modifies this
      ensures games == if confirmed then [] else old(games)
      ensures profiles == old(profiles) && current == old(current)
      ensures old(Valid()) ==> Valid()
    {
      if confirmed {
        games := [];
      }
    }

    /**
     * `switch_profile`: `requested` is the name passed in, or the dialog's answer when
     * none was. Only a non-empty listed name other than the current one is switched to;
     * `load_ui` then shows that profile's saved games, `loaded`, in order.
     */
    method SwitchProfile(requested: string, loaded: seq<Game>) returns (switched: bool)
      modifies this
      ensures switched <==> requested != "" && requested in old(profiles) && requested != old(current)
      ensures current == if switched then requested else old(current)
      ensures games == if switched then SortByName(loaded) else old(games)
      ensures profiles == old(profiles)
      ensures old(Valid()) && DistinctPaths(loaded) ==> Valid()
    {
      switched := requested != "" && requested in profiles && requested != current;
      if switched {
        current := requested;
        if DistinctPaths(loaded) {
          SortByNameDistinct(loaded);
        }
        SortByNameSorted(loaded);
        games := SortByName(loaded);
      }
    }

    /**
     * `new_profile`: a stripped, non-blank name not yet listed is appended and then
     * switched to, which loads its saved games `loaded`.
     */
    method NewProfile(answer: string, loaded: seq<Game>) returns (created: bool)
      modifies this
      ensures created <==> Strip(answer) != "" && Strip(answer) !in old(profiles)
      ensures profiles == if created then old(profiles) + [Strip(answer)] else old(profiles)
      ensures created && Strip(answer) != old(current) ==>
        current == Strip(answer) && games == SortByName(loaded)
      ensures !created || Strip(answer) == old(current) ==> current == old(current) && games == old(games)
      ensures created && old(Valid()) ==> current == Strip(answer)
      ensures old(Valid()) && DistinctPaths(loaded) ==> Valid()
    {
      var n := Strip(answer);
      created := n != "" && n !in profiles;
      if created {
        if Valid() {
          NoDupAppend(profiles, n);
        }
        profiles := profiles + [n];
        var _ := SwitchProfile(n, loaded);
      }
    }

    /**
     * `del_profile`: refused while at most one profile exists; otherwise the answered
     * name is deleted when it is listed, is not the current profile, and the deletion
     * is confirmed. Python's `list.remove` drops its first occurrence.
     */
    method DelProfile(answer: string, confirmed: bool) returns (deleted: bool)
      modifies this
      ensures deleted <==>
        |old(profiles)| > 1 && answer != "" && answer in old(profiles) && answer != old(current) && confirmed
      ensures profiles == if deleted then RemoveFirst(old(profiles), answer) else old(profiles)
      ensures deleted ==> |profiles| == |old(profiles)| - 1
      ensures deleted && old(Valid()) ==> answer !in profiles
      ensures current == old(current) && games == old(games)
      ensures old(Valid()) ==> Valid()
    {
      deleted := false;
      if |profiles| <= 1 {
        return;
      }
      if answer != "" && answer in profiles && answer != current && confirmed {
        if Valid() {
          RemoveFirstNoDup(profiles, answer);
        }
        profiles := RemoveFirst(profiles, answer);
        deleted := true;
      }
    }

    /**
     * `clear_all` as written: once confirmed, every saved document is gone, the profile
     * list is `["Default"]` and "Default" is switched to. The switch reloads the (now
     * empty) games only when the current profile was another one; when it already was
     * "Default", the games stay in memory and the next add or removal saves them again.
     */
    method ClearAllAsWritten(confirmed: bool)
      modifies this
      ensures confirmed ==> profiles == ["Default"] && current == "Default"
      ensures confirmed && old(current) != "Default" ==> games == []
      ensures confirmed && old(current) == "Default" ==> games == old(games)
      ensures !confirmed ==> profiles == old(profiles) && current == old(current) && games == old(games)
      ensures old(Valid()) ==> Valid()
    {
      if confirmed {
        profiles := ["Default"];
        var _ := SwitchProfile("Default", []);
      }
    }

    /** `clear_all` as intended: once confirmed, no profile but "Default" and no game is left. */
    method ClearAll(confirmed: bool)
      modifies this
      ensures confirmed ==> profiles == ["Default"] && current == "Default" && games == []
      ensures !confirmed ==> profiles == old(profiles) && current == old(current) && games == old(games)
      ensures confirmed ==> Valid()
      ensures old(Valid()) ==> Valid()
    {
      if confirmed {
        profiles := ["Default"];
        var switched := SwitchProfile("Default", []);
        if !switched {
          games := [];
        }
      }
    }
  }
}

/** Two verified scenarios that tell the as-written `clear_all` from the intended one. */
module ClearAllScenarios {
  import opened Wrappers
  import opened Text
  import opened Registry
  import opened LauncherState

  /**
   * A scenario for the as-written `clear_all`: the "Default" profile is opened with one saved
   * game and all data is cleared; the game is still listed afterwards.
   */
  method ClearAllKeepsDefaultGames() returns (left: seq<Game>)
    ensures left == [Game("Foo", "D:\\Foo\\foo.exe")]
  {
    var game := Game("Foo", "D:\\Foo\\foo.exe");
    assert SortByName([game]) == [game] by {
      assert [game][1..] == [];
    }
    var launcher := new Launcher.Load(None, None, Some([game]));
    launcher.ClearAllAsWritten(true);
    left := launcher.games;
  }

  /** The same scenario with the corrected `clear_all` leaves no game. */
  method ClearAllEmptiesDefaultGames() returns (left: seq<Game>)
    ensures left == []
  {
    var launcher := new Launcher.Load(None, None, Some([Game("Foo", "D:\\Foo\\foo.exe")]));
    launcher.ClearAll(true);
    left := launcher.games;
  }
}
