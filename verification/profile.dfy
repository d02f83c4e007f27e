/** Profiles: where an issue is looked up, and which command is taken from what is found there. */
module Profile {
  import opened CString
  import opened Commands
  import opened Sequences
  import opened Wrappers

  datatype Json =
    | JsonNumber(value: int)
    | JsonString(text: string)
    | JsonArray(items: seq<Json>)
    | JsonObject(members: seq<Member>)
    | JsonLiteral
  datatype Member = Member(name: string, item: Json)

  /** A profile that could be read, and the entries of its sanity list as they are printed. */
  datatype Parsed = Parsed(root: Json, sanity: seq<string>)

  function Lower(c: char): char {
    if 'A' <= c <= 'Z' then (c as int + 32) as char else c
  }

  /** Names are compared without regard to case. */
  predicate SameName(a: string, b: string) {
    |a| == |b| && forall i :: 0 <= i < |a| ==> Lower(a[i]) == Lower(b[i])
  }

  predicate HasMember(json: Json, name: string) {
    json.JsonObject? && exists m :: m in json.members && SameName(m.name, name)
  }

  /** cJSON_GetObjectItem: the first member of that name, if the value is an object that has one. */
  function GetObjectItem(json: Option<Json>, name: string): (r: Option<Json>)
    ensures r.Some? <==> json.Some? && HasMember(json.value, name)
  {
    if json.Some? && json.value.JsonObject? then MemberOf(json.value.members, name) else None
  }

  function MemberOf(members: seq<Member>, name: string): (r: Option<Json>)
    ensures r.Some? <==> exists m :: m in members && SameName(m.name, name)
  {
    if members == [] then None
    else if SameName(members[0].name, name) then Some(members[0].item)
    else
      assert members == [members[0]] + members[1..];
      MemberOf(members[1..], name)
  }

  /** A profile lists an issue when it has the category and the category has the type, if the issue names one. */
  predicate Lists(profile: Json, category: string, issueType: Option<string>) {
    && HasMember(profile, category)
    && (issueType.Some? ==> HasMember(GetObjectItem(Some(profile), category).value, issueType.value))
  }

  method FindIssueInParsedJSON(profile: Json, category: string, issueType: Option<string>) returns (result: bool)
    ensures result == Lists(profile, category, issueType)
  {
    result := false;
    var found := GetObjectItem(Some(profile), category);
    if found.Some? {
      if issueType.None? {
        result := true;
      } else {
        var item := GetObjectItem(found, issueType.value);
        result := item.Some?;
      }
    }
  }

  // ----- the command of an issue -----

  const DEFAULT_TIMEOUT := 90

  /** The children that can be counted off: those of an array or an object. */
  function Children(json: Option<Json>): seq<Json> {
    match json
    case Some(JsonArray(items)) => items
    case Some(JsonObject(members)) => Map((m: Member) => m.item, members)
    case _ => []
  }

  /** The entry of an issue; a category alone has none. */
  function EntryOf(profile: Json, category: string, issueType: Option<string>): seq<Json> {
    if issueType.None? then [] else Children(GetObjectItem(GetObjectItem(Some(profile), category), issueType.value))
  }

  /** The last string of an entry. */
  function LastString(items: seq<Json>): (r: Option<string>)
    ensures r.None? <==> forall item :: item in items ==> !item.JsonString?
  {
    if items == [] then None
    else
      var init, last := items[..|items| - 1], items[|items| - 1];
      assert items == init + [last];
      if last.JsonString? then Some(last.text) else LastString(init)
  }

  /** The last number of an entry, or 0. */
  function LastNumber(items: seq<Json>): int {
    if items == [] then 0
    else if items[|items| - 1].JsonNumber? then items[|items| - 1].value
    else LastNumber(items[..|items| - 1])
  }

  /** The loop over an entry: each string overwrites the command, each number the timeout. */
  method ReadEntry(items: seq<Json>) returns (command: Option<string>, timeout: int)
    ensures command == match LastString(items) case None => None case Some(text) => Some(Printed(text))
    ensures timeout == LastNumber(items)
  {
    command, timeout := None, 0;
    for j := 0 to |items|
      invariant command == match LastString(items[..j]) case None => None case Some(text) => Some(Printed(text))
      invariant timeout == LastNumber(items[..j])
    {
      assert items[..j + 1][..j] == items[..j];
      match items[j] {
        case JsonNumber(value) => timeout := value;
        case JsonString(text) => command := Some(Printed(text));
        case _ =>
      }
    }
    assert items[..|items|] == items;
  }

  lemma {:induction false} PrintedHasNoNul(s: string)
    ensures NUL !in Escaped(s) && NUL !in Printed(s)
  {
    if s == [] {
    } else {
      PrintedHasNoNul(s[1..]);
    }
  }

  /** The text of the command of an issue; None when there is none or the check refuses it. */
  ghost function Chosen(profile: Parsed, category: string, issueType: Option<string>): Option<string> {
    var text := LastString(EntryOf(profile.root, category, issueType));
    if text.None? || Harmful(Printed(text.value), profile.sanity) then None else text
  }

  function TimeoutOf(profile: Parsed, category: string, issueType: Option<string>): int {
    var n := LastNumber(EntryOf(profile.root, category, issueType));
    if n == 0 then DEFAULT_TIMEOUT else n
  }

  /** getIssueCommandInfo: no command exactly when the entry has no string or the last one, as printed, has a listed
      pattern in it; otherwise that string as printed, with the background fix made, and a timeout that is never 0. */
  method GetIssueCommandInfo(profile: Parsed, category: string, issueType: Option<string>)
    returns (command: array?<char>, timeout: int)
    ensures var chosen := Chosen(profile, category, issueType);
            && (command == null <==> chosen.None?)
            && (command != null ==>
                  && fresh(command) && Terminated(command[..])
                  && Text(command[..]) == Backgrounded(Printed(chosen.value))
                  && timeout == TimeoutOf(profile, category, issueType))
  {
    var entry := EntryOf(profile.root, category, issueType);
    var tmpCommand;
    tmpCommand, timeout := ReadEntry(entry);
    if tmpCommand.None? {
      return null, timeout;
    }
    PrintedHasNoNul(LastString(entry).value);
    var buffer := Concatenated(tmpCommand.value, "");
    assert tmpCommand.value + "" == tmpCommand.value;
    var ret := IsCommandsValid(buffer, profile.sanity);
    if ret != 0 {
      return null, timeout;
    }
    command := buffer;
    if timeout == 0 {
      timeout := DEFAULT_TIMEOUT;
    }
  }

  // ----- which entry, and what in it -----

  /** The i-th member is the first of a name. */
  predicate FirstNamed(members: seq<Member>, name: string, i: int) {
    0 <= i < |members| && SameName(members[i].name, name) && forall j :: 0 <= j < i ==> !SameName(members[j].name, name)
  }

  lemma {:induction false} MemberOfFirst(members: seq<Member>, name: string, i: nat)
    requires FirstNamed(members, name, i)
    ensures MemberOf(members, name) == Some(members[i].item)
  {
    if i == 0 {
    } else {
      assert !SameName(members[0].name, name);
      MemberOfFirst(members[1..], name, i - 1);
    }
  }

  lemma {:induction false} FirstOf(members: seq<Member>, name: string) returns (i: nat)
    requires exists m :: m in members && SameName(m.name, name)
    ensures FirstNamed(members, name, i)
  {
    if SameName(members[0].name, name) {
      i := 0;
    } else {
      assert members == [members[0]] + members[1..];
      i := FirstOf(members[1..], name);
      i := i + 1;
    }
  }

  lemma OneFirst(members: seq<Member>, name: string, i: int, k: int)
    requires FirstNamed(members, name, i) && FirstNamed(members, name, k)
    ensures i == k
  {
  }

  /** The children of a value: the elements of an array, the values of an object. */
  predicate HasChildren(json: Json, kids: seq<Json>) {
    match json
    case JsonArray(items) => kids == items
    case JsonObject(members) => |kids| == |members| && forall k :: 0 <= k < |kids| ==> kids[k] == members[k].item
    case _ => false
  }

  /** An issue's entry is inside its category: the first member of the category's name is an object, and the first
      member there of the type's name has these children. */
  predicate EntryAt(root: Json, category: string, name: string, i: int, j: int, kids: seq<Json>) {
    && root.JsonObject? && FirstNamed(root.members, category, i) && root.members[i].item.JsonObject?
    && FirstNamed(root.members[i].item.members, name, j) && HasChildren(root.members[i].item.members[j].item, kids)
  }

  /** Such a profile lists the issue, and that is its entry. */
  lemma EntryIs(root: Json, category: string, name: string, i: int, j: int, kids: seq<Json>)
    requires EntryAt(root, category, name, i, j, kids)
    ensures Lists(root, category, Some(name)) && EntryOf(root, category, Some(name)) == kids
  {
    MemberOfFirst(root.members, category, i);
    MemberOfFirst(root.members[i].item.members, name, j);
    assert root.members[i] in root.members;
    assert root.members[i].item.members[j] in root.members[i].item.members;
  }

  /** Nothing but such a profile lists an issue with a type, except that the entry may have no children. */
  lemma ListsExact(root: Json, category: string, name: string)
    ensures Lists(root, category, Some(name)) <==>
              root.JsonObject? && exists i, j ::
                && FirstNamed(root.members, category, i) && root.members[i].item.JsonObject?
                && FirstNamed(root.members[i].item.members, name, j)
    ensures Lists(root, category, None) <==> root.JsonObject? && exists i :: FirstNamed(root.members, category, i)
  {
    if HasMember(root, category) {
      var i := FirstOf(root.members, category);
      MemberOfFirst(root.members, category, i);
      var found := root.members[i].item;
      if HasMember(found, name) {
        var j := FirstOf(found.members, name);
        assert FirstNamed(root.members[i].item.members, name, j);
      }
      forall k | FirstNamed(root.members, category, k)
        ensures k == i
      {
        OneFirst(root.members, category, i, k);
      }
    }
  }

  /** The last string and the last number of an entry. */
  lemma {:induction false} LastOnes(items: seq<Json>, k: nat)
    requires k < |items|
    ensures items[k].JsonString? && (forall l :: k < l < |items| ==> !items[l].JsonString?) ==>
              LastString(items) == Some(items[k].text)
    ensures items[k].JsonNumber? && (forall l :: k < l < |items| ==> !items[l].JsonNumber?) ==>
              LastNumber(items) == items[k].value
    decreases |items|
  {
    var n := |items| - 1;
    if k == n {
    } else {
      LastOnes(items[..n], k);
    }
  }

  lemma {:induction false} NoNumber(items: seq<Json>)
    requires forall l :: 0 <= l < |items| ==> !items[l].JsonNumber?
    ensures LastNumber(items) == 0
  {
    if items == [] {
    } else {
      NoNumber(items[..|items| - 1]);
    }
  }

  /** So the command of an issue is the last string of that entry, unless the check refuses it, and none when the entry
      has no string. */
  lemma ChosenExact(profile: Parsed, category: string, name: string, i: int, j: int, kids: seq<Json>, k: nat)
    requires EntryAt(profile.root, category, name, i, j, kids)
    ensures (forall l :: 0 <= l < |kids| ==> !kids[l].JsonString?) ==> Chosen(profile, category, Some(name)) == None
    ensures k < |kids| && kids[k].JsonString? && (forall l :: k < l < |kids| ==> !kids[l].JsonString?) ==>
              Chosen(profile, category, Some(name)) ==
                if Harmful(Printed(kids[k].text), profile.sanity) then None else Some(kids[k].text)
  {
    EntryIs(profile.root, category, name, i, j, kids);
    if k < |kids| {
      LastOnes(kids, k);
    }
  }

  /** And its timeout is the last number, or 90 when that is 0 or there is none. */
  lemma TimeoutExact(profile: Parsed, category: string, name: string, i: int, j: int, kids: seq<Json>, k: nat)
    requires EntryAt(profile.root, category, name, i, j, kids)
    ensures (forall l :: 0 <= l < |kids| ==> !kids[l].JsonNumber?) ==> TimeoutOf(profile, category, Some(name)) == 90
    ensures k < |kids| && kids[k].JsonNumber? && (forall l :: k < l < |kids| ==> !kids[l].JsonNumber?) ==>
              TimeoutOf(profile, category, Some(name)) == if kids[k].value == 0 then 90 else kids[k].value
  {
    EntryIs(profile.root, category, name, i, j, kids);
    if k < |kids| {
      LastOnes(kids, k);
    }
    if forall l :: 0 <= l < |kids| ==> !kids[l].JsonNumber? {
      NoNumber(kids);
    }
  }

  /** Case does not matter in a name, and nothing but case is ignored. */
  lemma NamesExact(a: string, b: string, i: nat)
    requires |a| == |b| && i < |a| && SameName(a, b)
    ensures 'a' <= a[i] <= 'z' ==> b[i] == a[i] || b[i] as int == a[i] as int - 32
    ensures 'A' <= a[i] <= 'Z' ==> b[i] == a[i] || b[i] as int == a[i] as int + 32
    ensures !('a' <= a[i] <= 'z') && !('A' <= a[i] <= 'Z') ==> b[i] == a[i]
  {
  }

  lemma NamesAgree(a: string, b: string)
    requires |a| == |b|
    requires forall i :: 0 <= i < |a| ==> a[i] == b[i] || ('A' <= a[i] <= 'Z' && b[i] as int == a[i] as int + 32)
    ensures SameName(a, b) && SameName(b, a)
  {
  }
}
