/**
 * The access-control store (`AuthManager`): which users may use the bot,
 * which are banned, and which are advanced users for a number of days.
 * The admin edits it with comma-separated lists of user ids; the admin's
 * own record is seeded into an empty store and is never edited.
 */
module Auth {
  import opened Wrappers
  import opened PyStr
  import opened PyInt
  import opened Telegram

  /** `AdvancedInfo`: when the advanced period started (seconds) and how many days it lasts. */
  datatype AdvancedInfo = AdvancedInfo(startDate: int, durationDays: real)

  /** `UserInfo` without its `id` field, which nothing reads. */
  datatype UserInfo = UserInfo(name: string, isAllowed: bool, advanced: Option<AdvancedInfo>)

  /** The `allowed_users` store: user id to record. */
  type Store = map<string, UserInfo>

  /** A store after an edit loop, and whether the loop ran to the end (false where it raised). */
  datatype Edit = Edit(users: Store, completed: bool)

  // ---------------------------------------------------------------- checks

  /** `check_user_id`: may this id be edited? Checked against `store` when one is given. */
  function CheckUserId(userId: string, admin: string, store: Option<Store>): (ok: bool)
    ensures userId == "*" ==> ok
    ensures userId != "*" && (ParseInt(userId).None? || ParseInt(userId).value < 0) ==> !ok
    ensures userId != "*" && userId == admin ==> !ok
    ensures userId != "*" && store.Some? && userId !in store.value ==> !ok
    ensures (userId != "*" && ParseInt(userId).Some? && ParseInt(userId).value >= 0 && userId != admin
      && (store.None? || userId in store.value)) ==> ok
  {
    if userId == "*" then true
    else if ParseInt(userId).None? || ParseInt(userId).value < 0 then false
    else if userId == admin then false
    else if store.Some? && userId !in store.value then false
    else true
  }

  /** `check_admin`: the sender's id, written in decimal, is the configured admin id. */
  function CheckAdmin(sender: User, admin: string): (ok: bool)
    ensures ok ==> ParseInt(admin) == Some(sender.id)
  {
    StrParses(sender.id);
    Str(sender.id) == admin
  }

  /** At most one user is the admin. */
  lemma AdminIsOneUser(a: User, b: User, admin: string)
    requires CheckAdmin(a, admin) && CheckAdmin(b, admin)
    ensures a.id == b.id
  {
    StrInjective(a.id, b.id);
  }

  /** With `ADMIN_USER_ID` unset (its default is the empty string) nobody is the admin. */
  lemma NobodyAdminWhenUnset(sender: User)
    ensures !CheckAdmin(sender, "")
  {
  }

  /** The decimal rendering of a non-negative id passes `check_user_id` unless it is the admin's. */
  lemma PlainIdAccepted(n: nat, admin: string, store: Option<Store>)
    requires Str(n) != admin
    requires store.Some? ==> Str(n) in store.value
    ensures CheckUserId(Str(n), admin, store)
  {
    StrParses(n);
  }

  // ---------------------------------------------------------------- record edits

  /** The record `update_user_info` writes: the name kept when the new one is falsy, the rest overwritten. */
  function Updated(info: UserInfo, name: Option<string>, isAllowed: bool, advanced: Option<AdvancedInfo>): (r: UserInfo)
    ensures r.name == (if name.Some? && name.value != "" then name.value else info.name)
    ensures r.isAllowed == isAllowed && r.advanced == advanced
  {
    UserInfo(if name.Some? && name.value != "" then name.value else info.name, isAllowed, advanced)
  }

  /** `allowed_user_dbm`: an empty store is seeded with the admin's record, advanced for ever. */
  function Seeded(store: Store, admin: string, forever: AdvancedInfo): (r: Store)
    ensures store != map[] ==> r == store
    ensures store == map[] ==> r == map[admin := UserInfo("Admin", true, Some(forever))]
  {
    if store == map[] then map[admin := UserInfo("Admin", true, Some(forever))] else store
  }

  // ---------------------------------------------------------------- add_allowed

  const EveryoneName := "Everyone"
  const UnknownName := "Name_Unknown"

  /** One comma piece of `add_allowed`'s prompt as (raw id, raw name); None where unpacking it raises. */
  function AllowedPair(s: string): (r: Option<(string, string)>)
    ensures '/' !in s ==> r.Some? && r.value.0 == s
    ensures '/' in s && r.Some? ==> s == r.value.0 + "/" + r.value.1
  {
    if '/' in s then
      var parts := Split(s, "/");
      if |parts| == 2 then
        JoinSplit(s, "/");
        assert parts[1..] == [parts[1]];
        Some((parts[0], parts[1]))
      else None
    else Some((s, if Strip(s) == "*" then EveryoneName else UnknownName))
  }

  /** The store after one piece of `add_allowed`; None where the piece does not unpack. */
  function AllowEntry(users: Store, s: string, admin: string): (r: Option<Store>)
    ensures r.None? <==> AllowedPair(s).None?
    ensures r.Some? ==> (r.value == users
      || exists id :: id in r.value && CheckUserId(id, admin, None) && r.value == users[id := r.value[id]])
  {
    match AllowedPair(s)
    case None => None
    case Some(pair) =>
      var isAllowed := !StartsWith(pair.0, "-");
      var id := if isAllowed then Strip(pair.0) else Drop(Strip(pair.0), 1);
      if CheckUserId(id, admin, None) then
        Some(users[id := UserInfo(Strip(Replace(pair.1, "`", "")), isAllowed, None)])
      else Some(users)
  }

  /** `add_allowed`'s loop over the pieces; a piece that does not unpack stops it, keeping the earlier writes. */
  function AddAllowedFrom(users: Store, pieces: seq<string>, admin: string): (r: Edit)
    ensures r.completed <==> forall i :: 0 <= i < |pieces| ==> AllowedPair(pieces[i]).Some?
    decreases |pieces|
  {
    if pieces == [] then Edit(users, true)
    else
      match AllowEntry(users, pieces[0], admin)
      case None => Edit(users, false)
      case Some(next) => AddAllowedFrom(next, pieces[1..], admin)
  }

  /** `AllowEntry` once the piece's pair, ban mark and id are known. */
  lemma AllowEntryOf(users: Store, s: string, admin: string, rawId: string, rawName: string, isAllowed: bool, id: string)
    requires AllowedPair(s) == Some((rawId, rawName))
    requires StartsWith(rawId, "-") == !isAllowed
    requires id == if isAllowed then Strip(rawId) else Drop(Strip(rawId), 1)
    requires CheckUserId(id, admin, None)
    ensures AllowEntry(users, s, admin) == Some(users[id := UserInfo(Strip(Replace(rawName, "`", "")), isAllowed, None)])
  {
  }

  /** The decimal rendering of a non-negative id has no sign, no space and no '/'. */
  lemma PlainIdShape(n: nat)
    ensures !StartsWith(Str(n), "-") && Strip(Str(n)) == Str(n) && '/' !in Str(n) && Str(n) != "*"
  {
    StrChars(n);
    assert IsDigit(Str(n)[0]) by { assert Str(n) == Digits(n); }
    StripTrimmed(Str(n));
  }

  /** A piece "id/name" allows the user under the name with backquotes and outer spaces removed. */
  lemma AllowNamed(users: Store, n: nat, name: string, admin: string)
    requires '/' !in name && Str(n) != admin
    ensures AllowEntry(users, Str(n) + "/" + name, admin)
      == Some(users[Str(n) := UserInfo(Strip(Replace(name, "`", "")), true, None)])
  {
    var s := Str(n) + "/" + name;
    PlainIdShape(n);
    assert AllowedPair(s) == Some((Str(n), name)) by {
      assert s == Str(n) + ['/'] + name;
      SplitPair(Str(n), name, '/');
      assert s[|Str(n)|] == '/';
    }
    PlainIdAccepted(n, admin, None);
    AllowEntryOf(users, s, admin, Str(n), name, true, Str(n));
  }

  /** A piece "-id/name" bans the user. */
  lemma BanNamed(users: Store, n: nat, name: string, admin: string)
    requires '/' !in name && Str(n) != admin
    ensures AllowEntry(users, "-" + Str(n) + "/" + name, admin)
      == Some(users[Str(n) := UserInfo(Strip(Replace(name, "`", "")), false, None)])
  {
    var raw := "-" + Str(n);
    BanPair(n, name);
    NegatedIdShape(n);
    PlainIdAccepted(n, admin, None);
    AllowEntryOf(users, raw + "/" + name, admin, raw, name, false, Str(n));
  }

  /** "-id" holds no '/', starts with '-', and gives back the id once stripped of it. */
  lemma NegatedIdShape(n: nat)
    ensures '/' !in "-" + Str(n) && StartsWith("-" + Str(n), "-")
    ensures Drop(Strip("-" + Str(n)), 1) == Str(n)
  {
    var raw := "-" + Str(n);
    PlainIdShape(n);
    assert forall i :: 1 <= i < |raw| ==> raw[i] == Str(n)[i - 1];
    assert Trimmed(raw);
    StripTrimmed(raw);
  }

  /** "-id/name" splits at its one '/' into "-id" and the name. */
  lemma BanPair(n: nat, name: string)
    requires '/' !in name
    ensures AllowedPair("-" + Str(n) + "/" + name) == Some(("-" + Str(n), name))
  {
    var raw := "-" + Str(n);
    var s := raw + "/" + name;
    NegatedIdShape(n);
    assert s == raw + ['/'] + name;
    SplitPair(raw, name, '/');
    assert s[|raw|] == '/';
  }

  /** A bare id is allowed under the name "Name_Unknown". */
  lemma AllowUnnamed(users: Store, n: nat, admin: string)
    requires Str(n) != admin
    ensures AllowEntry(users, Str(n), admin) == Some(users[Str(n) := UserInfo(UnknownName, true, None)])
  {
    PlainIdShape(n);
    assert AllowedPair(Str(n)) == Some((Str(n), UnknownName));
    PlainIdAccepted(n, admin, None);
    CleanConstantName(UnknownName);
    AllowEntryOf(users, Str(n), admin, Str(n), UnknownName, true, Str(n));
  }

  /** A bare "*", spaces around it allowed, allows everyone under the name "Everyone". */
  lemma AllowEveryone(users: Store, s: string, admin: string)
    requires Strip(s) == "*" && '/' !in s && !StartsWith(s, "-")
    ensures AllowEntry(users, s, admin) == Some(users["*" := UserInfo(EveryoneName, true, None)])
  {
    assert AllowedPair(s) == Some((s, EveryoneName));
    CleanConstantName(EveryoneName);
    AllowEntryOf(users, s, admin, s, EveryoneName, true, "*");
  }

  /** A name with no backquote and no outer space comes through unchanged. */
  lemma CleanConstantName(name: string)
    requires '`' !in name && Trimmed(name)
    ensures Strip(Replace(name, "`", "")) == name
  {
    RemoveCharAbsent(name, '`');
    StripTrimmed(name);
  }

  /** What one piece changes: only an entry whose id passes the check, written with a clean name and no advanced period. */
  lemma AllowEntryChanges(users: Store, s: string, admin: string)
    requires AllowEntry(users, s, admin).Some?
    ensures var r := AllowEntry(users, s, admin).value;
      users.Keys <= r.Keys
      && forall k :: k in r && (k !in users || r[k] != users[k]) ==>
           CheckUserId(k, admin, None) && r[k].advanced.None? && '`' !in r[k].name && Trimmed(r[k].name)
  {
    var pair := AllowedPair(s).value;
    RemoveCharGone(pair.1, '`');
    StripKeepsOut(Replace(pair.1, "`", ""), '`');
  }

  /**
   * `add_allowed` never deletes, and every entry it writes passes
   * `check_user_id`, has no advanced period and a name without backquotes.
   */
  lemma {:induction false} AddAllowedChanges(users: Store, pieces: seq<string>, admin: string)
    ensures var r := AddAllowedFrom(users, pieces, admin).users;
      users.Keys <= r.Keys
      && forall k :: k in r && (k !in users || r[k] != users[k]) ==>
           CheckUserId(k, admin, None) && r[k].advanced.None? && '`' !in r[k].name && Trimmed(r[k].name)
    decreases |pieces|
  {
    if pieces != [] && AllowEntry(users, pieces[0], admin).Some? {
      var next := AllowEntry(users, pieces[0], admin).value;
      AllowEntryChanges(users, pieces[0], admin);
      AddAllowedChanges(next, pieces[1..], admin);
    }
  }

  /** The admin's record is never touched by `add_allowed` (when the admin id is not "*"). */
  lemma AddAllowedKeepsAdmin(users: Store, pieces: seq<string>, admin: string)
    requires admin != "*"
    ensures var r := AddAllowedFrom(users, pieces, admin).users;
      (admin in r <==> admin in users) && (admin in users ==> r[admin] == users[admin])
  {
    AddAllowedChanges(users, pieces, admin);
  }

  // ---------------------------------------------------------------- remove_allowed

  /** The stripped comma pieces of a stripped prompt, as `remove_allowed` and `remove_advanced` read it. */
  function IdList(prompt: string): (ids: seq<string>)
    ensures forall i :: 0 <= i < |ids| ==> Trimmed(ids[i])
  {
    var parts := Split(Strip(prompt), ",");
    seq(|parts|, i requires 0 <= i < |parts| => Strip(parts[i]))
  }

  /**
   * `remove_allowed`'s loop over listed ids: each one passing `check_user_id`
   * against the current store is deleted. "*" passes without being looked
   * up, so a "*" absent from the store makes `del` raise.
   */
  function RemoveFrom(users: Store, ids: seq<string>, admin: string): (r: Edit)
    ensures r.users.Keys <= users.Keys
    ensures !r.completed ==> "*" in ids
    decreases |ids|
  {
    if ids == [] then Edit(users, true)
    else if !CheckUserId(ids[0], admin, Some(users)) then RemoveFrom(users, ids[1..], admin)
    else if ids[0] !in users then Edit(users, false)
    else RemoveFrom(users - {ids[0]}, ids[1..], admin)
  }

  /**
   * `remove_allowed` keeps the records it does not delete as they were,
   * deletes only listed ids that pass the check, deletes every such id when
   * it completes, and stops early only where "*" is listed.
   */
  lemma {:induction false} RemoveFromSpec(users: Store, ids: seq<string>, admin: string)
    ensures var e := RemoveFrom(users, ids, admin);
      e.users.Keys <= users.Keys
      && (forall k :: k in e.users ==> e.users[k] == users[k])
      && (forall k :: k in users && k !in e.users ==> k in ids && CheckUserId(k, admin, None))
      && (e.completed ==> forall k :: k in ids && k in users && CheckUserId(k, admin, None) ==> k !in e.users)
      && (!e.completed ==> "*" in ids)
    decreases |ids|
  {
    if ids != [] {
      assert forall k :: k in ids[1..] ==> k in ids;
      if !CheckUserId(ids[0], admin, Some(users)) {
        RemoveFromSpec(users, ids[1..], admin);
      } else if ids[0] in users {
        RemoveFromSpec(users - {ids[0]}, ids[1..], admin);
      }
    }
  }

  /** `remove_allowed` with "everyone" listed: every stored id passing the check is deleted. */
  function RemoveEveryone(users: Store, admin: string): (r: Store)
    ensures r.Keys <= users.Keys
    ensures forall k :: k in r ==> r[k] == users[k]
  {
    map k | k in users && !CheckUserId(k, admin, None) :: users[k]
  }

  /** Neither form of `remove_allowed` deletes the admin's record (when the admin id is not "*"). */
  lemma RemoveKeepsAdmin(users: Store, ids: seq<string>, admin: string)
    requires admin != "*" && admin in users
    ensures admin in RemoveFrom(users, ids, admin).users
    ensures admin in RemoveEveryone(users, admin)
  {
    RemoveFromSpec(users, ids, admin);
  }

  // ---------------------------------------------------------------- add_advanced

  /** One comma piece of `add_advanced`'s prompt as (stripped id, days); None where unpacking or `float` raises. */
  function AdvancedPair(s: string, parseDays: string -> Option<real>): (r: Option<(string, real)>)
    ensures r.Some? ==> Trimmed(r.value.0)
    ensures '/' !in s ==> (r.Some? <==> parseDays("1").Some?)
    ensures '/' !in s && r.Some? ==> r.value == (Strip(s), parseDays("1").value)
  {
    var parts := if '/' in s then Split(s, "/") else [s, "1"];
    if |parts| != 2 then None
    else
      match parseDays(parts[1])
      case None => None
      case Some(d) => Some((Strip(parts[0]), d))
  }

  /** All pieces of `add_advanced`'s stripped prompt; None when any one of them raises, before any edit. */
  function AdvancedPairs(pieces: seq<string>, parseDays: string -> Option<real>): (r: Option<seq<(string, real)>>)
    ensures r.Some? ==> |r.value| == |pieces|
    ensures r.Some? ==> forall i :: 0 <= i < |pieces| ==> AdvancedPair(pieces[i], parseDays) == Some(r.value[i])
    ensures r.None? ==> exists i :: 0 <= i < |pieces| && AdvancedPair(pieces[i], parseDays).None?
    decreases |pieces|
  {
    if pieces == [] then Some([])
    else
      match AdvancedPair(pieces[0], parseDays)
      case None => None
      case Some(p) =>
        match AdvancedPairs(pieces[1..], parseDays)
        case None => None
        case Some(ps) => Some([p] + ps)
  }

  /** The notice for a banned user, naming the user's id. */
  function BannedNotice(userId: string): (r: string)
    ensures |r| > 6 + |userId| && r[..6] == "User `" && r[6..6 + |userId|] == userId && r[6 + |userId|] == '`'
  {
    "User `" + userId + ("`" + " is banned, therefore can't become an advanced user\n")
  }

  /** The notice as `add_advanced` writes it: the id without its first character. */
  function BannedNoticeAsWritten(userId: string): (r: string)
    ensures r == BannedNotice(Drop(userId, 1))
  {
    "User `" + Drop(userId, 1) + ("`" + " is banned, therefore can't become an advanced user\n")
  }

  /** The written notice names a different user: "12" is reported as "2". */
  lemma BannedNoticeAsWrittenDropsDigit()
    ensures BannedNoticeAsWritten("12") != BannedNotice("12")
  {
    assert BannedNoticeAsWritten("12")[6] == '2';
    assert BannedNotice("12")[6] == '1';
  }

  /** The id a notice names can be read back from it. */
  lemma BannedNoticeNamesUser(a: string, b: string)
    requires BannedNotice(a) == BannedNotice(b)
    ensures a == b
  {
    var tail := "` is banned, therefore can't become an advanced user\n";
    assert |a| == |b|;
    assert BannedNotice(a)[6..6 + |a|] == a;
    assert BannedNotice(b)[6..6 + |b|] == b;
  }

  /**
   * One pair of `add_advanced`: an id passing the check is created as an
   * allowed "Unknown_Name" when absent; a banned user gets a notice and is
   * otherwise left alone; an allowed one becomes advanced from `now`.
   */
  function AdvanceStep(users: Store, userId: string, days: real, admin: string, now: int): (r: (Store, string))
    ensures !CheckUserId(userId, admin, None) ==> r == (users, "")
    ensures CheckUserId(userId, admin, None) && userId in users && !users[userId].isAllowed ==>
      r == (users, BannedNotice(userId))
    ensures CheckUserId(userId, admin, None) && (userId !in users || users[userId].isAllowed) ==>
      r.1 == "" && r.0 == users[userId := UserInfo(
        if userId in users then users[userId].name else "Unknown_Name", true, Some(AdvancedInfo(now, days)))]
  {
    if !CheckUserId(userId, admin, None) then (users, "")
    else
      var created := if userId in users then users else users[userId := UserInfo("Unknown_Name", true, None)];
      if !created[userId].isAllowed then (created, BannedNotice(userId))
      else (created[userId := Updated(created[userId], None, true, Some(AdvancedInfo(now, days)))], "")
  }

  /** `add_advanced`'s loop: the store and the notices it accumulates. */
  function AddAdvancedFrom(users: Store, pairs: seq<(string, real)>, admin: string, now: int): (r: (Store, string))
    ensures users.Keys <= r.0.Keys
    ensures r.0.Keys <= users.Keys + set i | 0 <= i < |pairs| :: pairs[i].0
    decreases |pairs|
  {
    if pairs == [] then (users, "")
    else
      var step := AdvanceStep(users, pairs[0].0, pairs[0].1, admin, now);
      var rest := AddAdvancedFrom(step.0, pairs[1..], admin, now);
      (rest.0, step.1 + rest.1)
  }

  /** `add_advanced`'s outcome once its pairs parse: the new store and the notices. */
  function Advanced(users: Store, pairs: seq<(string, real)>, admin: string, now: int): (Store, Result<string>) {
    var e := AddAdvancedFrom(users, pairs, admin, now);
    (e.0, Ok(e.1))
  }

  /**
   * `add_advanced` never deletes; it leaves banned users as they were; and
   * every record it writes passes the check and is an allowed advanced user
   * keeping its name, or "Unknown_Name" when it was new.
   */
  lemma {:induction false} AddAdvancedChanges(users: Store, pairs: seq<(string, real)>, admin: string, now: int)
    ensures var r := AddAdvancedFrom(users, pairs, admin, now).0;
      users.Keys <= r.Keys
      && (forall k :: k in users && !users[k].isAllowed ==> r[k] == users[k])
      && forall k :: k in r && (k !in users || r[k] != users[k]) ==>
           CheckUserId(k, admin, None) && r[k].isAllowed && r[k].advanced.Some?
           && r[k].name == (if k in users then users[k].name else "Unknown_Name")
    decreases |pairs|
  {
    if pairs != [] {
      var step := AdvanceStep(users, pairs[0].0, pairs[0].1, admin, now);
      AddAdvancedChanges(step.0, pairs[1..], admin, now);
    }
  }

  /** The admin's record is never touched by `add_advanced` (when the admin id is not "*"). */
  lemma AddAdvancedKeepsAdmin(users: Store, pairs: seq<(string, real)>, admin: string, now: int)
    requires admin != "*"
    ensures var r := AddAdvancedFrom(users, pairs, admin, now).0;
      (admin in r <==> admin in users) && (admin in users ==> r[admin] == users[admin])
  {
    AddAdvancedChanges(users, pairs, admin, now);
  }

  /** An allowed or new user listed last becomes advanced for the given days from `now`. */
  lemma AddAdvancedLast(users: Store, pairs: seq<(string, real)>, admin: string, now: int)
    requires pairs != [] && CheckUserId(pairs[|pairs| - 1].0, admin, None)
    requires var k := pairs[|pairs| - 1].0; k !in users || users[k].isAllowed
    ensures var k := pairs[|pairs| - 1].0; var r := AddAdvancedFrom(users, pairs, admin, now).0;
      k in r && r[k].isAllowed && r[k].advanced == Some(AdvancedInfo(now, pairs[|pairs| - 1].1))
  {
    AddAdvancedLastStep(users, pairs, admin, now);
  }

  lemma {:induction false} AddAdvancedLastStep(users: Store, pairs: seq<(string, real)>, admin: string, now: int)
    requires pairs != [] && CheckUserId(pairs[|pairs| - 1].0, admin, None)
    requires var k := pairs[|pairs| - 1].0; k !in users || users[k].isAllowed
    ensures var k := pairs[|pairs| - 1].0; var r := AddAdvancedFrom(users, pairs, admin, now).0;
      k in r && r[k].isAllowed && r[k].advanced == Some(AdvancedInfo(now, pairs[|pairs| - 1].1))
    decreases |pairs|
  {
    if |pairs| > 1 {
      var k := pairs[|pairs| - 1].0;
      var step := AdvanceStep(users, pairs[0].0, pairs[0].1, admin, now);
      AddAdvancedChanges(users, [pairs[0]], admin, now);
      assert AddAdvancedFrom(users, [pairs[0]], admin, now).0 == step.0;
      assert pairs[1..][|pairs[1..]| - 1] == pairs[|pairs| - 1];
      AddAdvancedLastStep(step.0, pairs[1..], admin, now);
    }
  }

  // ---------------------------------------------------------------- remove_advanced

  /**
   * `remove_advanced` as written: every listed id goes through
   * `update_user_info` with its default `is_allowed=True`, with no
   * `check_user_id`; an id that is not stored raises.
   */
  function ClearAdvancedAsWritten(users: Store, ids: seq<string>): (r: Edit)
    ensures r.users.Keys == users.Keys
    ensures r.completed <==> forall i :: 0 <= i < |ids| ==> ids[i] in users
    decreases |ids|
  {
    if ids == [] then Edit(users, true)
    else if ids[0] !in users then Edit(users, false)
    else ClearAdvancedAsWritten(users[ids[0] := Updated(users[ids[0]], None, true, None)], ids[1..])
  }

  /** As written, removing a banned user's advanced period lifts the ban. */
  lemma ClearAdvancedAsWrittenUnbans(users: Store, userId: string)
    requires userId in users && !users[userId].isAllowed
    ensures var e := ClearAdvancedAsWritten(users, [userId]);
      userId in e.users && e.users[userId].isAllowed
  {
  }

  /** As written, the admin's own advanced period can be removed. */
  lemma ClearAdvancedAsWrittenDemotesAdmin(users: Store, admin: string)
    requires admin in users && users[admin].advanced.Some?
    ensures var e := ClearAdvancedAsWritten(users, [admin]);
      admin in e.users && e.users[admin].advanced.None?
  {
  }

  /**
   * `remove_advanced` as evidently intended: a listed id that is stored and
   * passes `check_user_id` loses its advanced period and nothing else.
   */
  function ClearAdvanced(users: Store, ids: seq<string>, admin: string): (r: Store)
    ensures r.Keys == users.Keys
    decreases |ids|
  {
    if ids == [] then users
    else if ids[0] in users && CheckUserId(ids[0], admin, Some(users)) then
      ClearAdvanced(users[ids[0] := users[ids[0]].(advanced := None)], ids[1..], admin)
    else ClearAdvanced(users, ids[1..], admin)
  }

  /**
   * Clearing keeps every id, every name and every ban; only listed ids that
   * pass the check change, and those lose their advanced period.
   */
  lemma {:induction false} ClearAdvancedSpec(users: Store, ids: seq<string>, admin: string)
    ensures var r := ClearAdvanced(users, ids, admin);
      r.Keys == users.Keys
      && (forall k :: k in users ==> k in r && r[k].name == users[k].name && r[k].isAllowed == users[k].isAllowed)
      && (forall k :: k in users && k !in ids ==> k in r && r[k] == users[k])
      && (forall k :: k in users && k in ids && CheckUserId(k, admin, None) ==> k in r && r[k].advanced.None?)
      && (forall k :: k in users && !CheckUserId(k, admin, None) ==> k in r && r[k] == users[k])
    decreases |ids|
  {
    if ids != [] {
      if ids[0] in users && CheckUserId(ids[0], admin, Some(users)) {
        ClearAdvancedSpec(users[ids[0] := users[ids[0]].(advanced := None)], ids[1..], admin);
      } else {
        ClearAdvancedSpec(users, ids[1..], admin);
      }
    }
  }

  // ---------------------------------------------------------------- the store

  class AuthManager {
    /** `ADMIN_USER_ID`. */
    const admin: string
    /** The persistent `allowed_users` store. */
    var users: Store

    constructor(admin: string, stored: Store)
      ensures this.admin == admin && users == stored
    {
      this.admin := admin;
      users := stored;
    }

    /** `allowed_user_dbm`: opens the store, seeding the admin's record into an empty one. */
    method AllowedUserDbm(forever: AdvancedInfo)
      modifies this`users
      ensures users == Seeded(old(users), admin, forever)
    {
      if users == map[] {
        users := map[admin := UserInfo("Admin", true, Some(forever))];
      }
    }

    /** `update_user_info`; false where the id is not stored (`KeyError`), changing nothing. */
    method UpdateUserInfo(userId: string, name: Option<string>, isAllowed: bool, advanced: Option<AdvancedInfo>)
      returns (ok: bool)
      modifies this`users
      ensures ok <==> userId in old(users)
      ensures ok ==> users == old(users)[userId := Updated(old(users)[userId], name, isAllowed, advanced)]
      ensures !ok ==> users == old(users)
    {
      if userId !in users {
        return false;
      }
      users := users[userId := Updated(users[userId], name, isAllowed, advanced)];
      ok := true;
    }

    /** `add_allowed`: false where a piece does not unpack, the earlier pieces' writes kept. */
    method AddAllowed(sender: User, prompt: string, forever: AdvancedInfo) returns (completed: bool)
      modifies this`users
      ensures !CheckAdmin(sender, admin) ==> users == old(users) && completed
      ensures CheckAdmin(sender, admin) ==>
        Edit(users, completed) == AddAllowedFrom(Seeded(old(users), admin, forever), Split(prompt, ","), admin)
    {
      if !CheckAdmin(sender, admin) {
        return true;
      }
      AllowedUserDbm(forever);
      var pieces := Split(prompt, ",");
      for i := 0 to |pieces|
        invariant AddAllowedFrom(users, pieces[i..], admin)
          == AddAllowedFrom(Seeded(old(users), admin, forever), pieces, admin)
      {
        assert pieces[i..][1..] == pieces[i + 1..];
        var next := AllowEntry(users, pieces[i], admin);
        if next.None? {
          return false;
        }
        users := next.value;
      }
      completed := true;
    }

    /** `remove_allowed`: false where a listed "*" is not stored (`del` raises), the earlier deletions kept. */
    method RemoveAllowed(sender: User, prompt: string, forever: AdvancedInfo) returns (completed: bool)
      modifies this`users
      ensures !CheckAdmin(sender, admin) ==> users == old(users) && completed
      ensures CheckAdmin(sender, admin) && "everyone" in IdList(prompt) ==>
        users == RemoveEveryone(Seeded(old(users), admin, forever), admin) && completed
      ensures CheckAdmin(sender, admin) && "everyone" !in IdList(prompt) ==>
        Edit(users, completed) == RemoveFrom(Seeded(old(users), admin, forever), IdList(prompt), admin)
    {
      if !CheckAdmin(sender, admin) {
        return true;
      }
      AllowedUserDbm(forever);
      var ids := IdList(prompt);
      if "everyone" in ids {
        RemoveAll();
        return true;
      }
      for i := 0 to |ids|
        invariant RemoveFrom(users, ids[i..], admin) == RemoveFrom(Seeded(old(users), admin, forever), ids, admin)
      {
        assert ids[i..][1..] == ids[i + 1..];
        if CheckUserId(ids[i], admin, Some(users)) {
          if ids[i] !in users {
            return false;
          }
          users := users - {ids[i]};
        }
      }
      completed := true;
    }

    /** The "everyone" loop of `remove_allowed`, over the stored ids in the store's own order. */
    method RemoveAll()
      modifies this`users
      ensures users == RemoveEveryone(old(users), admin)
    {
      var pending := users.Keys;
      while pending != {}
        invariant pending <= old(users).Keys
        invariant users == map k | k in old(users) && (k in pending || !CheckUserId(k, admin, None)) :: old(users)[k]
        decreases pending
      {
        var k :| k in pending;
        if CheckUserId(k, admin, Some(users)) {
          users := users - {k};
        }
        pending := pending - {k};
      }
    }

    /**
     * `add_advanced`: nothing changes when a piece does not unpack or its day
     * count does not parse; otherwise the notices for banned users are returned.
     * `parseDays` is Python's `float` and `now` the clock.
     */
    method AddAdvanced(sender: User, prompt: string, parseDays: string -> Option<real>, now: int,
                       forever: AdvancedInfo)
      returns (r: Result<string>)
      modifies this`users
      ensures !CheckAdmin(sender, admin) ==> users == old(users) && r == Ok("")
      ensures CheckAdmin(sender, admin) && AdvancedPairs(Split(Strip(prompt), ","), parseDays).None? ==>
        r.Err? && users == old(users)
      ensures CheckAdmin(sender, admin) && AdvancedPairs(Split(Strip(prompt), ","), parseDays).Some? ==>
        (users, r) == Advanced(Seeded(old(users), admin, forever), AdvancedPairs(Split(Strip(prompt), ","), parseDays).value, admin, now)
    {
      if !CheckAdmin(sender, admin) {
        return Ok("");
      }
      var parsed := AdvancedPairs(Split(Strip(prompt), ","), parseDays);
      if parsed.None? {
        return Err("ValueError");
      }
      AllowedUserDbm(forever);
      var text := AdvanceAll(parsed.value, now);
      r := Ok(text);
    }

    /** The loop of `add_advanced` over parsed pairs; returns the notices. */
    method AdvanceAll(pairs: seq<(string, real)>, now: int) returns (text: string)
      modifies this`users
      ensures (users, text) == AddAdvancedFrom(old(users), pairs, admin, now)
    {
      ghost var all := AddAdvancedFrom(users, pairs, admin, now);
      text := "";
      assert pairs[0..] == pairs;
      for i := 0 to |pairs|
        invariant AddAdvancedFrom(users, pairs[i..], admin, now).0 == all.0
        invariant text + AddAdvancedFrom(users, pairs[i..], admin, now).1 == all.1
      {
        ghost var before := users;
        var notice := AdvanceOne(pairs[i].0, pairs[i].1, now);
        ghost var rest := AddAdvancedFrom(users, pairs[i + 1..], admin, now);
        assert AddAdvancedFrom(before, pairs[i..], admin, now) == (rest.0, notice + rest.1) by {
          ghost var step := AdvanceStep(before, pairs[i].0, pairs[i].1, admin, now);
          assert step == (users, notice);
          assert pairs[i..][0] == pairs[i] && pairs[i..][1..] == pairs[i + 1..];
          assert AddAdvancedFrom(before, pairs[i..], admin, now)
            == (AddAdvancedFrom(step.0, pairs[i + 1..], admin, now).0, step.1 + AddAdvancedFrom(step.0, pairs[i + 1..], admin, now).1);
        }
        ConcatAssoc(text, notice, rest.1);
        text := text + notice;
      }
      assert pairs[|pairs|..] == [];
      assert text + "" == text;
    }

    /** One pair of `add_advanced`'s loop; returns the notice for a banned user, or "". */
    method AdvanceOne(userId: string, days: real, now: int) returns (notice: string)
      modifies this`users
      ensures (users, notice) == AdvanceStep(old(users), userId, days, admin, now)
    {
      if !CheckUserId(userId, admin, None) {
        return "";
      }
      if userId !in users {
        users := users[userId := UserInfo("Unknown_Name", true, None)];
      }
      if !users[userId].isAllowed {
        return BannedNotice(userId);
      }
      var ok := UpdateUserInfo(userId, None, true, Some(AdvancedInfo(now, days)));
      notice := "";
    }

    /** `remove_advanced`, following `ClearAdvanced`. */
    method RemoveAdvanced(sender: User, prompt: string, forever: AdvancedInfo)
      modifies this`users
      ensures !CheckAdmin(sender, admin) ==> users == old(users)
      ensures CheckAdmin(sender, admin) ==>
        users == ClearAdvanced(Seeded(old(users), admin, forever), IdList(prompt), admin)
    {
      if !CheckAdmin(sender, admin) {
        return;
      }
      var ids := IdList(prompt);
      AllowedUserDbm(forever);
      for i := 0 to |ids|
        invariant ClearAdvanced(users, ids[i..], admin) == ClearAdvanced(Seeded(old(users), admin, forever), ids, admin)
      {
        assert ids[i..][1..] == ids[i + 1..];
        if ids[i] in users && CheckUserId(ids[i], admin, Some(users)) {
          users := users[ids[i] := users[ids[i]].(advanced := None)];
        }
      }
    }
  }
}
