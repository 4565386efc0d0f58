/** The profile manager, libanjuta/anjuta-profile-manager.c, updating its lists in
    place.  Every method is proved against the function of the same name in
    ProfileStack. */
module ProfileManagement {
  import opened Options
  import opened ProfileStack

  class ProfileManager {
    var profiles: seq<Profile>
    var profilesQueue: seq<Profile>
    var freezeCount: nat
    var connections: map<Profile, nat>
    const unreadable: set<Profile>
    var reactions: seq<Reaction>
    ghost var log: seq<Call>

    ghost function Now(): State
      reads this
    {
      State(profiles, profilesQueue, freezeCount, connections, unreadable, reactions, log)
    }

    constructor (unreadable: set<Profile>, reactions: seq<Reaction>)
      ensures Now() == State([], [], 0, map[], unreadable, reactions, [])
    {
      this.unreadable := unreadable;
      profiles, profilesQueue, freezeCount := [], [], 0;
      connections, this.reactions, log := map[], reactions, [];
    }

    method Connect(profile: Profile)
      modifies this`connections
      ensures Now() == Connected(old(Now()), profile)
    {
      var count := if profile in connections then connections[profile] else 0;
      connections := connections[profile := count + 1];
    }

    /** anjuta_profile_unload */
    method UnloadProfile(profile: Profile)
      modifies this`connections
      ensures Now() == Unloaded(old(Now()), profile)
    {
      connections := connections[profile := 0];
    }

    /** anjuta_profile_load: its plugins may call the manager while they are
        activated, and again when the profile is scoped. */
    method Load(profile: Profile) returns (loaded: bool)
      modifies this
      ensures Now() == LoadProfile(old(Now()), profile)
      ensures loaded <==> profile !in unreadable
      decreases |reactions|, 0
    {
      if profile in unreadable {
        return false;
      }
      loaded := true;
      if reactions == [] {
        Connect(profile);
        return;
      }
      var reaction := reactions[0];
      reactions := reactions[1..];
      Handle(reaction.activating);
      Connect(profile);
      Handle(reaction.scoped);
    }

    method Freeze()
      modifies this`freezeCount, this`log
      ensures Now() == FreezeManager(old(Now()))
    {
      freezeCount := freezeCount + 1;
      log := log + [Call.Freeze];
    }

    /** The calls that a handler makes, one after the other. */
    method Handle(calls: seq<Call>)
      modifies this
      ensures Now() == Perform(old(Now()), calls)
      decreases |reactions|, 4, |calls|
    {
      if calls == [] {
        return;
      }
      match calls[0] {
        case Push(profile) => var ok := this.Push(profile);
        case Pop(profile) => var ok := this.Pop(profile);
        case Freeze => this.Freeze();
        case Thaw => var ok := this.Thaw();
      }
      Handle(calls[1..]);
    }

    /** One turn of the loop of anjuta_profile_manager_load_profiles: it leaves the rest of
        the loop to do, and ends sooner. */
    method LoadNext(ghost before: bool) returns (loaded: bool)
      requires freezeCount == 0 && profilesQueue != []
      modifies this
      ensures Now() == LoadProfile(old(Moved(Now())), old(profilesQueue[|profilesQueue| - 1]))
      ensures LoadProfiles(Now()) == LoadProfiles(old(Now())) && Verdict(Now(), loaded) == Verdict(old(Now()), before)
      ensures |reactions| < |old(reactions)| || (|reactions| == |old(reactions)| && |profilesQueue| < |old(profilesQueue)|)
      decreases |reactions|, 1
    {
      LoopTurn(Now(), before);
      var previous := profiles;
      var n := |profilesQueue| - 1;
      var profile := profilesQueue[n];
      profilesQueue := profilesQueue[..n];
      profiles := [profile] + profiles;
      if previous != [] {
        UnloadProfile(previous[0]);
      }
      assert Now() == old(Moved(Now()));
      loaded := Load(profile);
    }

    /** anjuta_profile_manager_load_profiles */
    method LoadQueue() returns (loaded: bool)
      modifies this
      ensures Now() == LoadProfiles(old(Now()))
      ensures loaded == Verdict(old(Now()), false)
      decreases |reactions|, 2
    {
      loaded := false;
      ghost var all, verdict := LoadProfiles(Now()), Verdict(Now(), false);
      while freezeCount == 0 && profilesQueue != []
        invariant LoadProfiles(Now()) == all && Verdict(Now(), loaded) == verdict
        invariant |reactions| <= |old(reactions)|
        decreases |reactions|, |profilesQueue|
      {
        loaded := LoadNext(loaded);
      }
    }

    method Push(profile: Profile) returns (loaded: bool)
      modifies this
      ensures Now() == PushProfile(old(Now()), profile)
      ensures loaded == Verdict(old(Queued(Now(), profile)), false)
      decreases |reactions|, 3
    {
      profilesQueue := [profile] + profilesQueue;
      log := log + [Call.Push(profile)];
      loaded := LoadQueue();
    }

    /** Removes the top of the stack, which must be the given profile; when another
        profile becomes current, the result tells whether it could be loaded. */
    method Pop(profile: Profile) returns (ok: bool)
      modifies this
      ensures Now() == PopProfile(old(Now()), profile)
      ensures ok <==> && old(Current(Now())) == Some(profile)
                      && (old(profilesQueue) == [] && |old(profiles)| > 1 ==> old(profiles)[1] !in unreadable)
      decreases |reactions|, 3
    {
      if profilesQueue != [] {
        if profilesQueue[0] != profile {
          return false;
        }
        profilesQueue := profilesQueue[1..];
        log := log + [Call.Pop(profile)];
        return true;
      }
      if profiles != [] {
        if profiles[0] != profile {
          return false;
        }
        profiles := profiles[1..];
        log := log + [Call.Pop(profile)];
        UnloadProfile(profile);
        if profiles != [] {
          ok := Load(profiles[0]);
          return;
        }
        return true;
      }
      return false;
    }

    method Thaw() returns (loaded: bool)
      modifies this
      ensures Now() == ThawManager(old(Now()))
      ensures loaded == Verdict(old(Thawed(Now())), false)
      decreases |reactions|, 3
    {
      if freezeCount > 0 {
        freezeCount := freezeCount - 1;
      }
      log := log + [Call.Thaw];
      loaded := LoadQueue();
    }

    /** The top of the stack, or nothing. */
    method GetCurrent() returns (current: Option<Profile>)
      ensures current == Current(Now())
    {
      if profilesQueue != [] {
        return Some(profilesQueue[0]);
      } else if profiles != [] {
        return Some(profiles[0]);
      }
      return None;
    }
  }
}
