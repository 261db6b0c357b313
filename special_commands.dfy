/**
 * The special commands, answered by the bot itself rather than queued on
 * the worker: saving and recalling a photo under a per-user image id, and
 * a plain id-to-name table of allowed users that only the admin edits.
 */
module Special {
  import opened Wrappers
  import opened PyStr
  import opened PyInt
  import opened Dict
  import opened Telegram
  import BotUtils
  import Auth

  // ---------------------------------------------------------------- image ids

  /** `get_full_image_id`: the key an image id is stored under, "<user id>:<image id>". */
  function FullImageId(userId: int, imageId: string): (key: string)
    ensures |key| == |Str(userId)| + 1 + |imageId|
    ensures key[|Str(userId)|] == ':' && key[|Str(userId)| + 1..] == imageId
  {
    Str(userId) + ":" + imageId
  }

  /** Different users, or different image ids, never share a key: the first ':' ends the user id. */
  lemma FullImageIdInjective(u1: int, i1: string, u2: int, i2: string)
    requires FullImageId(u1, i1) == FullImageId(u2, i2)
    ensures u1 == u2 && i1 == i2
  {
    var key := FullImageId(u1, i1);
    StrChars(u1);
    StrChars(u2);
    if |Str(u1)| != |Str(u2)| {
      assert false;
    } else {
      assert Str(u1) == key[..|Str(u1)|] == Str(u2);
      StrInjective(u1, u2);
    }
  }

  /** `parsed_data.get("prompt", '') or ''`. */
  function PromptOf(parsed: map<string, string>): string {
    if "prompt" in parsed then parsed["prompt"] else ""
  }

  const ExpectsPhotoText := "Command set_image_id expects a photo"
  const EmptyIdText := "Image id must not be empty for this command"

  function SetText(imageId: string): string {
    "Image id " + imageId + " is set successfully"
  }

  function NotSetText(imageId: string, user: User): string {
    "Image_id " + imageId + " isn't set for user " + BotUtils.GetUsername(user) + " (" + Str(user.id)
      + "). Run `/set_image_id " + imageId + "` with a photo"
  }

  function FoundText(imageId: string): string {
    "Found image id " + imageId + ". Wait a second"
  }

  // ---------------------------------------------------------------- the allowed-users table

  /** A line of `get_allowed`'s listing: the name, then the id. */
  function NameFirstLine(userId: string, name: string): string {
    "• `" + name + "` (" + userId + ")"
  }

  /** A line of the listing `add_allowed` and `remove_allowed` reply with: the id, then the name. */
  function IdFirstLine(userId: string, name: string): string {
    "• `" + userId + "` (`" + name + "`)"
  }

  /** The stored users, one line each in store order. */
  function Listing(store: Dict<string, string>, line: (string, string) -> string): (text: string)
    requires store.Valid()
    ensures store.keys == [] ==> text == ""
    ensures store.keys != [] ==> StartsWith(text, line(store.keys[0], store.vals[store.keys[0]]))
    ensures |store.keys| == 1 ==> text == line(store.keys[0], store.vals[store.keys[0]])
  {
    var lines := seq(|store.keys|, i requires 0 <= i < |store.keys| => line(store.keys[i], store.vals[store.keys[i]]));
    if lines != [] then JoinHead(lines, "\n"); Join(lines, "\n") else Join(lines, "\n")
  }

  const NoUsersText := "No user is allowed to use this bot yet"

  /** The id a piece of `add_allowed`'s prompt names and the name it gives; None where it does not unpack. */
  function PieceEntry(s: string): (r: Option<(string, string)>)
    ensures r.None? <==> Auth.AllowedPair(s).None?
    ensures '/' !in s ==> r.Some? && r.value.0 == Strip(s)
    ensures r.Some? ==> Trimmed(r.value.0) && Trimmed(r.value.1) && '`' !in r.value.1
  {
    match Auth.AllowedPair(s)
    case None => None
    case Some(p) =>
      RemoveCharGone(p.1, '`');
      StripKeepsOut(Replace(p.1, "`", ""), '`');
      Some((Strip(p.0), Strip(Replace(p.1, "`", ""))))
  }

  /** The pieces' entries in order; None where any piece does not unpack. */
  function Entries(pieces: seq<string>): (r: Option<seq<(string, string)>>)
    ensures r.Some? <==> forall j :: 0 <= j < |pieces| ==> PieceEntry(pieces[j]).Some?
    ensures r.Some? ==> |r.value| == |pieces|
    ensures r.Some? ==> forall j :: 0 <= j < |pieces| ==> PieceEntry(pieces[j]) == Some(r.value[j])
    decreases |pieces|
  {
    if pieces == [] then Some([])
    else
      match PieceEntry(pieces[0])
      case None => None
      case Some(e) =>
        match Entries(pieces[1..])
        case None => None
        case Some(es) => Some([e] + es)
  }

  /** The mapping a comprehension over `entries` builds: each entry in order, later duplicates overwriting. */
  function ValuesOf<K, V>(entries: seq<(K, V)>): map<K, V>
    decreases |entries|
  {
    if entries == [] then map[]
    else
      var e := entries[|entries| - 1];
      ValuesOf(entries[..|entries| - 1])[e.0 := e.1]
  }

  /** That comprehension as an insertion-ordered dictionary. */
  function DictOf<K(==), V>(entries: seq<(K, V)>): (d: Dict<K, V>)
    ensures d.Valid() && d.vals == ValuesOf(entries)
    decreases |entries|
  {
    if entries == [] then Empty()
    else
      var e := entries[|entries| - 1];
      DictOf(entries[..|entries| - 1]).Put(e.0, e.1)
  }

  /** A key is present exactly when some entry has it. */
  lemma {:induction false} ValuesOfKeys<K, V>(entries: seq<(K, V)>, k: K)
    ensures k in ValuesOf(entries) <==> exists j :: 0 <= j < |entries| && entries[j].0 == k
    decreases |entries|
  {
    if entries != [] {
      var init := entries[..|entries| - 1];
      ValuesOfKeys(init, k);
      assert forall j :: 0 <= j < |init| ==> init[j] == entries[j];
    }
  }

  /** A present key takes the value of the last entry that has it. */
  lemma {:induction false} ValuesOfLastWins<K, V>(entries: seq<(K, V)>, k: K)
    requires k in ValuesOf(entries)
    ensures exists j :: (0 <= j < |entries| && entries[j] == (k, ValuesOf(entries)[k])
      && forall l :: j < l < |entries| ==> entries[l].0 != k)
    decreases |entries|
  {
    var init := entries[..|entries| - 1];
    var last := entries[|entries| - 1];
    if last.0 != k {
      ValuesOfLastWins(init, k);
      var j :| 0 <= j < |init| && init[j] == (k, ValuesOf(init)[k])
        && (forall l :: j < l < |init| ==> init[l].0 != k);
      assert entries[j] == init[j];
      assert forall l :: j < l < |entries| - 1 ==> entries[l] == init[l];
    }
  }

  /** The id-to-name pairs `add_allowed` reads from its prompt; None where a piece does not unpack. */
  function NewNames(pieces: seq<string>): (r: Option<Dict<string, string>>)
    ensures r.Some? <==> forall j :: 0 <= j < |pieces| ==> PieceEntry(pieces[j]).Some?
    ensures r.Some? ==> r.value.Valid()
  {
    match Entries(pieces)
    case None => None
    case Some(es) => Some(DictOf(es))
  }

  /** `dict.update(names)` over the given keys of `names`, in order. */
  function UpdateFrom<K(==), V>(store: Dict<K, V>, names: map<K, V>, keys: seq<K>): (r: Dict<K, V>)
    requires store.Valid()
    requires forall i :: 0 <= i < |keys| ==> keys[i] in names
    ensures r.Valid()
    decreases |keys|
  {
    if keys == [] then store
    else
      var k := keys[|keys| - 1];
      UpdateFrom(store, names, keys[..|keys| - 1]).Put(k, names[k])
  }

  /** `store.update(names)`. */
  function Update<K(==), V>(store: Dict<K, V>, names: Dict<K, V>): (r: Dict<K, V>)
    requires store.Valid() && names.Valid()
    ensures r.Valid()
    ensures |store.keys| <= |r.keys| && r.keys[..|store.keys|] == store.keys
  {
    UpdateFromKeys(store, names.vals, names.keys);
    UpdateFrom(store, names.vals, names.keys)
  }

  /** Updating takes each listed name over the stored one. */
  lemma {:induction false} UpdateFromVals<K, V>(store: Dict<K, V>, names: map<K, V>, keys: seq<K>)
    requires store.Valid()
    requires forall i :: 0 <= i < |keys| ==> keys[i] in names
    ensures forall k :: k in UpdateFrom(store, names, keys).vals <==> k in store.vals || k in keys
    ensures forall k :: k in UpdateFrom(store, names, keys).vals ==>
      UpdateFrom(store, names, keys).vals[k] == if k in keys then names[k] else store.vals[k]
    decreases |keys|
  {
    if keys != [] {
      var init := keys[..|keys| - 1];
      UpdateFromVals(store, names, init);
      assert forall x :: x in keys <==> x in init || x == keys[|keys| - 1];
    }
  }

  /** Updating keeps the stored keys first, in their order. */
  lemma {:induction false} UpdateFromKeys<K, V>(store: Dict<K, V>, names: map<K, V>, keys: seq<K>)
    requires store.Valid()
    requires forall i :: 0 <= i < |keys| ==> keys[i] in names
    ensures |store.keys| <= |UpdateFrom(store, names, keys).keys|
    ensures UpdateFrom(store, names, keys).keys[..|store.keys|] == store.keys
    decreases |keys|
  {
    if keys != [] {
      var init := keys[..|keys| - 1];
      UpdateFromKeys(store, names, init);
      var before := UpdateFrom(store, names, init);
      var k := keys[|keys| - 1];
      assert before.Put(k, names[k]).keys[..|store.keys|] == before.keys[..|store.keys|];
    }
  }

  /** `store.update(names)`: the stored users and the new ones, a new name winning, and the old users stay first. */
  lemma UpdateSpec<K, V>(store: Dict<K, V>, names: Dict<K, V>)
    requires store.Valid() && names.Valid()
    ensures forall k :: k in Update(store, names).vals <==> k in store.vals || k in names.vals
    ensures forall k :: k in Update(store, names).vals ==>
      Update(store, names).vals[k] == if k in names.vals then names.vals[k] else store.vals[k]
    ensures |store.keys| <= |Update(store, names).keys| && Update(store, names).keys[..|store.keys|] == store.keys
  {
    UpdateFromVals(store, names.vals, names.keys);
    UpdateFromKeys(store, names.vals, names.keys);
    assert forall k :: k in names.keys <==> k in names.vals;
  }

  /** The ids `remove_allowed` reads from its prompt: each comma piece, stripped. */
  function PieceIds(prompt: string): (ids: seq<string>)
    ensures |ids| >= 1
    ensures forall i :: 0 <= i < |ids| ==> Trimmed(ids[i])
  {
    var parts := Split(prompt, ",");
    seq(|parts|, i requires 0 <= i < |parts| => Strip(parts[i]))
  }

  /** `remove_allowed`'s loop: a listed id is deleted when it is stored and is not the admin's. */
  function RemovedFrom(store: Dict<string, string>, ids: seq<string>, admin: string): (r: Dict<string, string>)
    requires store.Valid()
    ensures r.Valid()
    ensures admin in store.vals ==> admin in r.vals && r.vals[admin] == store.vals[admin]
    decreases |ids|
  {
    if ids == [] then store
    else
      var next := if ids[0] in store.vals && ids[0] != admin then store.Remove(ids[0]) else store;
      RemovedFrom(next, ids[1..], admin)
  }

  /** What is left is exactly the stored users not listed, plus the admin. */
  lemma {:induction false} RemovedFromSpec(store: Dict<string, string>, ids: seq<string>, admin: string)
    requires store.Valid()
    ensures RemovedFrom(store, ids, admin).vals
      == map k | k in store.vals && (k !in ids || k == admin) :: store.vals[k]
    decreases |ids|
  {
    if ids != [] {
      var next := if ids[0] in store.vals && ids[0] != admin then store.Remove(ids[0]) else store;
      RemovedFromSpec(next, ids[1..], admin);
      assert forall x :: x in ids <==> x == ids[0] || x in ids[1..];
    }
  }

  /** "everyone" removes every stored user but the admin. */
  lemma RemoveEveryoneKeepsOnlyAdmin(store: Dict<string, string>, admin: string)
    requires store.Valid()
    ensures RemovedFrom(store, store.keys, admin).vals == map k | k in store.vals && k == admin :: store.vals[k]
  {
    RemovedFromSpec(store, store.keys, admin);
  }

  // ---------------------------------------------------------------- the handlers

  class SpecialCommands {
    /** `ADMIN_USER_ID`. */
    const admin: string
    /** The `image_ids` store: full image id to Telegram file id. */
    var imageIds: map<string, string>
    /** The `allowed_users` store: user id to name. */
    var allowedUsers: Dict<string, string>
    /** The replies sent, oldest first. */
    var outbox: seq<Sent>

    ghost predicate Valid()
      reads this
    {
      allowedUsers.Valid()
    }

    constructor(admin: string, imageIds: map<string, string>, allowedUsers: Dict<string, string>)
      requires allowedUsers.Valid()
      ensures Valid()
      ensures this.admin == admin && this.imageIds == imageIds && this.allowedUsers == allowedUsers && outbox == []
    {
      this.admin := admin;
      this.imageIds := imageIds;
      this.allowedUsers := allowedUsers;
      outbox := [];
    }

    /**
     * `set_image_id`: a non-photo or an empty id is answered and nothing is
     * stored; a photo without sizes raises (`raised`) and stores nothing;
     * otherwise the widest size's file id is stored under the sender's key.
     */
    method SetImageId(message: Message, parsed: map<string, string>) returns (raised: bool)
      modifies this`imageIds, this`outbox
      ensures var imageId := PromptOf(parsed);
        if !message.IsPhoto() then
          !raised && imageIds == old(imageIds) && outbox == old(outbox) + [ReplyTo(message, ExpectsPhotoText)]
        else if Strip(imageId) == "" then
          !raised && imageIds == old(imageIds) && outbox == old(outbox) + [ReplyTo(message, EmptyIdText)]
        else if message.content.sizes == [] then
          raised && imageIds == old(imageIds) && outbox == old(outbox)
        else
          !raised && imageIds == old(imageIds)[FullImageId(message.from.id, imageId) := WidestFileId(message).value]
          && outbox == old(outbox) + [ReplyTo(message, SetText(imageId))]
    {
      if !message.IsPhoto() {
        outbox := outbox + [ReplyTo(message, ExpectsPhotoText)];
        return false;
      }
      var imageId := PromptOf(parsed);
      if Strip(imageId) == "" {
        outbox := outbox + [ReplyTo(message, EmptyIdText)];
        return false;
      }
      var key := FullImageId(message.from.id, imageId);
      var fileId := WidestFileId(message);
      if fileId.Err? {
        return true;
      }
      imageIds := imageIds[key := fileId.value];
      outbox := outbox + [ReplyTo(message, SetText(imageId))];
      raised := false;
    }

    /**
     * `get_image_id`: the stored file id for the sender's image id, after a
     * reply saying it was found; None, after the matching reply, when the id
     * is empty or was never set.
     */
    method GetImageId(message: Message, parsed: map<string, string>) returns (fileId: Option<string>)
      modifies this`outbox
      ensures var imageId := PromptOf(parsed); var key := FullImageId(message.from.id, imageId);
        if Strip(imageId) == "" then
          fileId.None? && outbox == old(outbox) + [ReplyTo(message, EmptyIdText)]
        else if key !in imageIds then
          fileId.None? && outbox == old(outbox) + [ReplyTo(message, NotSetText(imageId, message.from))]
        else
          fileId == Some(imageIds[key]) && outbox == old(outbox) + [ReplyTo(message, FoundText(imageId))]
    {
      var imageId := PromptOf(parsed);
      if Strip(imageId) == "" {
        outbox := outbox + [ReplyTo(message, EmptyIdText)];
        return None;
      }
      var key := FullImageId(message.from.id, imageId);
      if key !in imageIds {
        outbox := outbox + [ReplyTo(message, NotSetText(imageId, message.from))];
        return None;
      }
      fileId := Some(imageIds[key]);
      outbox := outbox + [ReplyTo(message, FoundText(imageId))];
    }

    /** `get_allowed`: the admin gets the listing, name first; anyone else gets nothing. */
    method GetAllowed(message: Message)
      requires Valid()
      modifies this`outbox
      ensures !Auth.CheckAdmin(message.from, admin) ==> outbox == old(outbox)
      ensures Auth.CheckAdmin(message.from, admin) ==>
        outbox == old(outbox) + [ReplyTo(message,
          if allowedUsers.keys != [] then "Allowed users:\n" + Listing(allowedUsers, NameFirstLine) else NoUsersText)]
    {
      if !Auth.CheckAdmin(message.from, admin) {
        return;
      }
      if allowedUsers.keys != [] {
        outbox := outbox + [ReplyTo(message, "Allowed users:\n" + Listing(allowedUsers, NameFirstLine))];
      } else {
        outbox := outbox + [ReplyTo(message, NoUsersText)];
      }
    }

    /**
     * `add_allowed`: the admin's pairs are merged into the table and the
     * listing sent; a piece that does not unpack raises before any change.
     */
    method AddAllowed(message: Message, parsed: map<string, string>) returns (raised: bool)
      requires Valid() && "prompt" in parsed
      modifies this`allowedUsers, this`outbox
      ensures Valid()
      ensures !Auth.CheckAdmin(message.from, admin) ==>
        !raised && allowedUsers == old(allowedUsers) && outbox == old(outbox)
      ensures Auth.CheckAdmin(message.from, admin) ==>
        match NewNames(Split(parsed["prompt"], ","))
        case None => raised && allowedUsers == old(allowedUsers) && outbox == old(outbox)
        case Some(names) =>
          !raised && allowedUsers == Update(old(allowedUsers), names)
          && outbox == old(outbox) + [ReplyTo(message, "Allowed users:\n" + Listing(allowedUsers, IdFirstLine))]
    {
      if !Auth.CheckAdmin(message.from, admin) {
        return false;
      }
      var names := NewNames(Split(parsed["prompt"], ","));
      if names.None? {
        return true;
      }
      allowedUsers := Update(allowedUsers, names.value);
      outbox := outbox + [ReplyTo(message, "Allowed users:\n" + Listing(allowedUsers, IdFirstLine))];
      raised := false;
    }

    /**
     * `remove_allowed`: the admin's listed ids, or every stored id for
     * "everyone", are deleted unless absent or the admin's; the reply lists
     * what is left.
     */
    method RemoveAllowed(message: Message, parsed: map<string, string>)
      requires Valid() && "prompt" in parsed
      modifies this`allowedUsers, this`outbox
      ensures Valid()
      ensures !Auth.CheckAdmin(message.from, admin) ==> allowedUsers == old(allowedUsers) && outbox == old(outbox)
      ensures Auth.CheckAdmin(message.from, admin) ==>
        allowedUsers == RemovedFrom(old(allowedUsers),
          if Strip(parsed["prompt"]) == "everyone" then old(allowedUsers).keys else PieceIds(parsed["prompt"]), admin)
        && outbox == old(outbox) + [ReplyTo(message, "Removed successfully" +
          if allowedUsers.keys != [] then "\nAllowed users:\n" + Listing(allowedUsers, IdFirstLine)
          else "\n" + NoUsersText)]
    {
      if !Auth.CheckAdmin(message.from, admin) {
        return;
      }
      var ids := if Strip(parsed["prompt"]) == "everyone" then allowedUsers.keys else PieceIds(parsed["prompt"]);
      RemoveIds(ids);
      var tail := if allowedUsers.keys != [] then "\nAllowed users:\n" + Listing(allowedUsers, IdFirstLine)
        else "\n" + NoUsersText;
      outbox := outbox + [ReplyTo(message, "Removed successfully" + tail)];
    }

    /** The `del` loop of `remove_allowed` over `ids`. */
    method RemoveIds(ids: seq<string>)
      requires Valid()
      modifies this`allowedUsers
      ensures Valid()
      ensures allowedUsers == RemovedFrom(old(allowedUsers), ids, admin)
    {
      ghost var final := RemovedFrom(allowedUsers, ids, admin);
      assert ids[0..] == ids;
      for i := 0 to |ids|
        invariant allowedUsers.Valid()
        invariant RemovedFrom(allowedUsers, ids[i..], admin) == final
      {
        assert ids[i..][1..] == ids[i + 1..];
        if ids[i] in allowedUsers.vals && ids[i] != admin {
          allowedUsers := allowedUsers.Remove(ids[i]);
        }
      }
      assert ids[|ids|..] == [];
    }
  }
}
