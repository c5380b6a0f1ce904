/** The pinned-repository store (src/stores/pinned.store.ts): a list of pinned
    repositories, toggled in place, and the browser storage it is persisted to. The two
    storages are fields of the store; what they hold under `pinnedRepos` is the list as
    it was written, so JSON encoding and decoding are the identity here. */
module Pinned {
  import opened Util

  /** A repository id is a string or a number, and the two never compare equal. */
  datatype RepoId = TextId(text: string) | NumberId(number: int)

  datatype Provider = GitLab | GitHub | Azure

  datatype PinnedRepo = PinnedRepo(id: RepoId, name: string, provider: Provider, url: string)

  /** The identity test of the store: same id and same provider; name and url play no
      part. */
  predicate SameRepo(r: PinnedRepo, id: RepoId, provider: Provider)
  {
    r.id == id && r.provider == provider
  }

  /** `findIndex`: the first entry with this identity, or -1. */
  function IndexOf(repos: seq<PinnedRepo>, id: RepoId, provider: Provider): (index: int)
    ensures -1 <= index < |repos|
    ensures index == -1 <==> forall k | 0 <= k < |repos| :: !SameRepo(repos[k], id, provider)
    ensures index >= 0 ==> SameRepo(repos[index], id, provider)
    ensures index >= 0 ==> forall k | 0 <= k < index :: !SameRepo(repos[k], id, provider)
  {
    if repos == [] then -1
    else if SameRepo(repos[0], id, provider) then 0
    else
      var rest := IndexOf(repos[1..], id, provider);
      if rest == -1 then -1 else rest + 1
  }

  /** `some`: an entry with this identity is pinned. */
  predicate PinnedIn(repos: seq<PinnedRepo>, id: RepoId, provider: Provider)
  {
    exists k | 0 <= k < |repos| :: SameRepo(repos[k], id, provider)
  }

  /** No identity is pinned twice. */
  predicate NoDuplicates(repos: seq<PinnedRepo>)
  {
    forall i, j | 0 <= i < j < |repos| :: !SameRepo(repos[j], repos[i].id, repos[i].provider)
  }

  /** The list after toggling `repo`: appended when its identity is not pinned, otherwise
      the first entry with its identity is cut out. */
  function Toggled(repos: seq<PinnedRepo>, repo: PinnedRepo): seq<PinnedRepo>
  {
    var index := IndexOf(repos, repo.id, repo.provider);
    if index == -1 then repos + [repo] else repos[..index] + repos[index + 1..]
  }

  /** Pinning an unpinned repository adds it at the end and nothing else. */
  lemma TogglePinAppends(repos: seq<PinnedRepo>, repo: PinnedRepo)
    requires !PinnedIn(repos, repo.id, repo.provider)
    ensures |Toggled(repos, repo)| == |repos| + 1
    ensures Toggled(repos, repo)[..|repos|] == repos && Toggled(repos, repo)[|repos|] == repo
    ensures PinnedIn(Toggled(repos, repo), repo.id, repo.provider)
  {
    var after := Toggled(repos, repo);
    assert after[..|repos|] == repos;
    assert SameRepo(after[|repos|], repo.id, repo.provider);
  }

  /** Unpinning removes one entry with the repository's identity, the first one, and
      keeps the others in their order. */
  lemma TogglePinRemovesFirst(repos: seq<PinnedRepo>, repo: PinnedRepo)
    requires PinnedIn(repos, repo.id, repo.provider)
    ensures |Toggled(repos, repo)| == |repos| - 1
    ensures exists i | 0 <= i < |repos| ::
              && SameRepo(repos[i], repo.id, repo.provider)
              && (forall k | 0 <= k < i :: !SameRepo(repos[k], repo.id, repo.provider))
              && Toggled(repos, repo) == repos[..i] + repos[i + 1..]
    ensures multiset(Toggled(repos, repo)) <= multiset(repos)
  {
    var i := IndexOf(repos, repo.id, repo.provider);
    assert repos == repos[..i] + [repos[i]] + repos[i + 1..];
  }

  /** With no duplicates, toggling flips whether the identity is pinned, and the list
      stays free of duplicates. */
  lemma TogglePinFlips(repos: seq<PinnedRepo>, repo: PinnedRepo)
    requires NoDuplicates(repos)
    ensures PinnedIn(Toggled(repos, repo), repo.id, repo.provider) <==> !PinnedIn(repos, repo.id, repo.provider)
    ensures NoDuplicates(Toggled(repos, repo))
  {
    var after := Toggled(repos, repo);
    var i := IndexOf(repos, repo.id, repo.provider);
    if i == -1 {
      TogglePinAppends(repos, repo);
      forall a, b | 0 <= a < b < |after| ensures !SameRepo(after[b], after[a].id, after[a].provider) {
        if b == |repos| {
          assert after[a] == repos[a];
        } else {
          assert after[a] == repos[a] && after[b] == repos[b];
        }
      }
    } else {
      forall k | 0 <= k < |after| ensures !SameRepo(after[k], repo.id, repo.provider) {
        if k < i {
          assert after[k] == repos[k];
        } else {
          assert after[k] == repos[k + 1];
        }
      }
      forall a, b | 0 <= a < b < |after| ensures !SameRepo(after[b], after[a].id, after[a].provider) {
        var a' := if a < i then a else a + 1;
        var b' := if b < i then b else b + 1;
        assert after[a] == repos[a'] && after[b] == repos[b'];
      }
    }
  }

  /** Pinning an unpinned repository and toggling it again restores the list. */
  lemma {:induction false} TogglePinTwice(repos: seq<PinnedRepo>, repo: PinnedRepo)
    requires !PinnedIn(repos, repo.id, repo.provider)
    ensures Toggled(Toggled(repos, repo), repo) == repos
  {
    var after := repos + [repo];
    assert IndexOf(repos, repo.id, repo.provider) == -1;
    assert forall k | 0 <= k < |repos| :: after[k] == repos[k] && !SameRepo(after[k], repo.id, repo.provider);
    assert SameRepo(after[|repos|], repo.id, repo.provider);
    assert IndexOf(after, repo.id, repo.provider) == |repos|;
    assert after[..|repos|] + after[|repos| + 1..] == repos;
  }

  /** Identity is the pair: the same number under another provider, or the same digits
      as a string, is a different pin. */
  lemma IdentityIsThePair()
    ensures var pinned := [PinnedRepo(NumberId(1), "a", GitHub, "u")];
            && !PinnedIn(pinned, NumberId(1), GitLab)
            && !PinnedIn(pinned, TextId("1"), GitHub)
            && PinnedIn(pinned, NumberId(1), GitHub)
            && Toggled(pinned, PinnedRepo(NumberId(1), "a", GitLab, "u")) ==
                 pinned + [PinnedRepo(NumberId(1), "a", GitLab, "u")]
  {
    var pinned := [PinnedRepo(NumberId(1), "a", GitHub, "u")];
    assert SameRepo(pinned[0], NumberId(1), GitHub);
  }

  /** The store: the list, the remember setting, and the three storage entries it
      touches: `rememberPins` in local storage and `pinnedRepos` in local and in session
      storage (`None` when the entry is absent). */
  class PinnedStore {
    var pinnedRepos: seq<PinnedRepo>
    var rememberPins: bool
    var localRemember: Option<string>
    var localPins: Option<seq<PinnedRepo>>
    var sessionPins: Option<seq<PinnedRepo>>

    /** The storage `savePinnedRepos` writes to holds the current list. */
    predicate Saved()
      reads this
    {
      if rememberPins then localPins == Some(pinnedRepos) else sessionPins == Some(pinnedRepos)
    }

    /** Store creation: read the remember setting, then load the list from the storage
        it selects, if that storage has one. */
    constructor(localRemember: Option<string>, localPins: Option<seq<PinnedRepo>>,
                sessionPins: Option<seq<PinnedRepo>>)
      ensures rememberPins <==> localRemember == Some("true")
      ensures rememberPins && localPins.Some? ==> pinnedRepos == localPins.value
      ensures !rememberPins && sessionPins.Some? ==> pinnedRepos == sessionPins.value
      ensures (if rememberPins then localPins else sessionPins) == None ==> pinnedRepos == []
      ensures this.localRemember == localRemember
      ensures this.localPins == localPins && this.sessionPins == sessionPins
    {
      this.localRemember := localRemember;
      this.localPins := localPins;
      this.sessionPins := sessionPins;
      rememberPins := localRemember == Some("true");
      pinnedRepos := [];
      new;
      LoadPinnedRepos();
    }

    /** `loadPinnedRepos` */
    method LoadPinnedRepos()
      modifies this
      ensures var stored := if rememberPins then localPins else sessionPins;
              pinnedRepos == if stored.Some? then stored.value else old(pinnedRepos)
      ensures rememberPins == old(rememberPins) && localRemember == old(localRemember)
      ensures localPins == old(localPins) && sessionPins == old(sessionPins)
    {
      var stored := if rememberPins then localPins else sessionPins;
      if stored.Some? {
        pinnedRepos := stored.value;
      }
    }

    /** `savePinnedRepos`: write the list to the selected storage; the other one keeps
        what it had. */
    method SavePinnedRepos()
      modifies this
      ensures Saved()
      ensures rememberPins ==> sessionPins == old(sessionPins)
      ensures !rememberPins ==> localPins == old(localPins)
      ensures pinnedRepos == old(pinnedRepos) && rememberPins == old(rememberPins)
      ensures localRemember == old(localRemember)
    {
      if rememberPins {
        localPins := Some(pinnedRepos);
      } else {
        sessionPins := Some(pinnedRepos);
      }
    }

    /** `toggleRememberPins(value)`: record the setting and move the list to the storage
        it selects, removing it from the other one. */
    method ToggleRememberPins(value: bool)
      modifies this
      ensures rememberPins == value && localRemember == Some(if value then "true" else "false")
      ensures Saved()
      ensures value ==> sessionPins == None
      ensures !value ==> localPins == None
      ensures pinnedRepos == old(pinnedRepos)
    {
      rememberPins := value;
      localRemember := Some(if value then "true" else "false");
      if value {
        localPins := Some(pinnedRepos);
        sessionPins := None;
      } else {
        sessionPins := Some(pinnedRepos);
        localPins := None;
      }
    }

    /** `togglePin(repo)`: append it if its identity is not pinned, otherwise remove the
        first entry with its identity; then save. */
    method TogglePin(repo: PinnedRepo)
      modifies this
      ensures pinnedRepos == Toggled(old(pinnedRepos), repo)
      ensures Saved()
      ensures rememberPins ==> sessionPins == old(sessionPins)
      ensures !rememberPins ==> localPins == old(localPins)
      ensures rememberPins == old(rememberPins) && localRemember == old(localRemember)
    {
      var index := IndexOf(pinnedRepos, repo.id, repo.provider);
      if index == -1 {
        pinnedRepos := pinnedRepos + [repo];
      } else {
        pinnedRepos := pinnedRepos[..index] + pinnedRepos[index + 1..];
      }
      SavePinnedRepos();
    }

    /** `isPinned(id, provider)` */
    predicate IsPinned(id: RepoId, provider: Provider)
      reads this
      ensures IsPinned(id, provider) <==> IndexOf(pinnedRepos, id, provider) != -1
    {
      PinnedIn(pinnedRepos, id, provider)
    }
  }

  /** Pinning and unpinning through the store: the repository is pinned after the first
      toggle, the list is back to what it was after the second, and the selected storage
      holds it each time. */
  method PinThenUnpin(store: PinnedStore, repo: PinnedRepo)
    requires !store.IsPinned(repo.id, repo.provider)
    modifies store
    ensures store.pinnedRepos == old(store.pinnedRepos)
    ensures store.Saved()
  {
    ghost var before := store.pinnedRepos;
    store.TogglePin(repo);
    TogglePinAppends(before, repo);
    assert store.IsPinned(repo.id, repo.provider);
    store.TogglePin(repo);
    TogglePinTwice(before, repo);
  }
}
