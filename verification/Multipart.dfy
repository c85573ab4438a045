/** The two multipart handlers that build a new share: the browser form and the API. */
module Multipart {
  import opened Basics
  import opened Requests
  import Json

  /** One multipart field; `bytes` and `text` are None where reading the body that way fails. */
  datatype Item =
    | Broken
    | Field(name: Option<string>, fileName: Option<string>, bytes: Option<Bytes>, text: Option<string>)

  datatype Why = Malformed | NoFile | EmptyFile | NoEmail | NoName | NotAttested

  datatype Reply = Accepted(req: NewShareRequest) | Refused(why: Why)

  // ----- number parsing: `str::parse::<u32>` --------------------------------------

  function DigitsValue(s: string): Option<nat> {
    if s == "" then Some(0)
    else
      var init := DigitsValue(s[..|s| - 1]);
      var c := s[|s| - 1];
      if init.None? || !Json.IsDigit(c) then None else Some(init.value * 10 + (c as int - '0' as int))
  }

  function ParseU32(s: string, default: nat): nat {
    var digits := if s != "" && s[0] == '+' then s[1..] else s;
    var v := DigitsValue(digits);
    if digits == "" || v.None? || v.value >= 0x1_0000_0000 then default else v.value
  }

  lemma {:induction false} DigitsRound(n: nat)
    ensures DigitsValue(Json.NatDigits(n)) == Some(n)
    ensures Json.NatDigits(n) != "" && Json.NatDigits(n)[0] != '+'
  {
    var s := Json.NatDigits(n);
    if n >= 10 {
      DigitsRound(n / 10);
      assert s[..|s| - 1] == Json.NatDigits(n / 10);
    } else {
      assert s[..|s| - 1] == "";
    }
  }

  /** A printed u32 parses to itself, signed or not; anything larger is not a number to the handlers. */
  lemma NumberRound(n: nat, default: nat)
    ensures ParseU32(Json.NatText(n), default) == if n < 0x1_0000_0000 then n else default
    ensures ParseU32("+" + Json.NatText(n), default) == if n < 0x1_0000_0000 then n else default
  {
    DigitsRound(n);
    assert ("+" + Json.NatDigits(n))[1..] == Json.NatDigits(n);
  }

  lemma {:induction false} DigitsOnly(s: string)
    ensures DigitsValue(s).Some? <==> forall i | 0 <= i < |s| :: '0' <= s[i] <= '9'
  {
    if s != "" {
      DigitsOnly(s[..|s| - 1]);
    }
  }

  /** Anything but digits after an optional plus sign gives the default. */
  lemma NotANumber(s: string, default: nat)
    requires var digits := if s != "" && s[0] == '+' then s[1..] else s;
      digits == "" || exists i :: 0 <= i < |digits| && !('0' <= digits[i] <= '9')
    ensures ParseU32(s, default) == default
  {
    DigitsOnly(if s != "" && s[0] == '+' then s[1..] else s);
  }

  // ----- the meaning of a field sequence --------------------------------------------

  datatype Form = Form(
    fileName: Option<string>,
    fileBytes: Option<Bytes>,
    email: Option<string>,
    phone: Option<string>,
    displayName: Option<string>,
    expires: nat,
    maxDownloads: nat,
    note: Option<string>,
    attested: bool)

  const EMPTY := Form(None, None, None, None, None, 72, 3, None, false)

  function NameOf(item: Item): string
    requires item.Field?
  {
    if item.name.None? then "" else item.name.value
  }

  function UnlessBlank(t: string): Option<string> {
    if Trim(t) == "" then None else Some(t)
  }

  predicate SaysYes(t: string) {
    var v := Trim(t);
    v == "1" || v == "true" || v == "yes" || v == "on"
  }

  /** The attestation box: present is enough for the form, the API reads its value. */
  function Attests(api: bool, item: Item): bool
    requires item.Field?
  {
    !api || (item.text.Some? && SaysYes(item.text.value))
  }

  function Absorb(api: bool, f: Form, item: Item): Option<Form> {
    if item.Broken? then None
    else if NameOf(item) == "file" then
      if item.bytes.None? then None else Some(f.(fileName := item.fileName, fileBytes := item.bytes))
    else if NameOf(item) == "cui_attested" then Some(f.(attested := Attests(api, item)))
    else if !IsTextField(NameOf(item)) then Some(f)
    else if item.text.None? then None
    else Some(SetText(f, NameOf(item), item.text.value))
  }

  predicate IsTextField(name: string) {
    || name == "vendor_email" || name == "vendor_phone" || name == "vendor_display_name"
    || name == "expires_in_hours" || name == "max_downloads" || name == "note"
  }

  function SetText(f: Form, name: string, t: string): Form {
    if name == "vendor_email" then f.(email := Some(t))
    else if name == "vendor_phone" then f.(phone := UnlessBlank(t))
    else if name == "vendor_display_name" then f.(displayName := Some(t))
    else if name == "expires_in_hours" then f.(expires := ParseU32(t, 72))
    else if name == "max_downloads" then f.(maxDownloads := ParseU32(t, 3))
    else f.(note := UnlessBlank(t))
  }

  function Fold(api: bool, items: seq<Item>): Option<Form> {
    if items == [] then Some(EMPTY)
    else
      var f := Fold(api, items[..|items| - 1]);
      if f.None? then None else Absorb(api, f.value, items[|items| - 1])
  }

  function Finish(lower: string -> string, f: Form, owner: Uuid, caller: Caller): Reply {
    var email := if f.email.None? then "" else lower(Trim(f.email.value));
    var name := if f.displayName.None? then "" else Trim(f.displayName.value);
    if f.fileName.None? || f.fileName.value == "" then Refused(NoFile)
    else if f.fileBytes.None? || f.fileBytes.value == [] then Refused(EmptyFile)
    else if email == "" then Refused(NoEmail)
    else if name == "" then Refused(NoName)
    else if !f.attested then Refused(NotAttested)
    else Accepted(NewShareRequest(f.fileName.value, f.fileBytes.value, email, f.phone, name,
                                  f.expires, f.maxDownloads, f.note, f.attested, owner, caller))
  }

  function Handle(api: bool, lower: string -> string, items: seq<Item>, owner: Uuid, caller: Caller): Reply {
    var f := Fold(api, items);
    if f.None? then Refused(Malformed) else Finish(lower, f.value, owner, caller)
  }

  // ----- the two handlers -----------------------------------------------------------

  /** `share_new_post`. */
  method ShareNewPost(lower: string -> string, items: seq<Item>, owner: Uuid, caller: Caller) returns (r: Reply)
    ensures r == Handle(false, lower, items, owner, caller)
    ensures Judges(false, lower, items, owner, caller, r)
  {
    hide Judges;
    HandledExactly(false, lower, items, owner, caller);
    var filename: Option<string> := None;
    var fileBytes: Option<Bytes> := None;
    var vendorEmail: Option<string> := None;
    var vendorPhone: Option<string> := None;
    var vendorDisplayName: Option<string> := None;
    var expiresInHours := 72;
    var maxDownloads := 3;
    var note: Option<string> := None;
    var cuiAttested := false;
    for i := 0 to |items|
      invariant Fold(false, items[..i]) == Some(Form(filename, fileBytes, vendorEmail, vendorPhone,
                  vendorDisplayName, expiresInHours, maxDownloads, note, cuiAttested))
    {
      FoldStep(false, items, i);
      var field := items[i];
      if field.Broken? {
        return Refused(Malformed);
      }
      var name := if field.name.None? then "" else field.name.value;
      if name == "file" {
        filename := field.fileName;
        if field.bytes.None? {
          return Refused(Malformed);
        }
        fileBytes := field.bytes;
      } else if IsTextField(name) {
        if field.text.None? {
          return Refused(Malformed);
        }
        var t := field.text.value;
        if name == "vendor_email" {
          vendorEmail := Some(t);
        } else if name == "vendor_phone" {
          vendorPhone := if Trim(t) == "" then None else Some(t);
        } else if name == "vendor_display_name" {
          vendorDisplayName := Some(t);
        } else if name == "expires_in_hours" {
          expiresInHours := ParseU32(t, 72);
        } else if name == "max_downloads" {
          maxDownloads := ParseU32(t, 3);
        } else {
          note := if Trim(t) == "" then None else Some(t);
        }
      } else if name == "cui_attested" {
        cuiAttested := true;
      }
    }
    assert items[..|items|] == items;
    r := Checked(lower, filename, fileBytes, vendorEmail, vendorPhone, vendorDisplayName,
                 expiresInHours, maxDownloads, note, cuiAttested, owner, caller);
  }

  /** `api_shares_post`. */
  method ApiSharesPost(lower: string -> string, items: seq<Item>, owner: Uuid, caller: Caller) returns (r: Reply)
    ensures r == Handle(true, lower, items, owner, caller)
    ensures Judges(true, lower, items, owner, caller, r)
  {
    hide Judges;
    HandledExactly(true, lower, items, owner, caller);
    var filename: Option<string> := None;
    var fileBytes: Option<Bytes> := None;
    var vendorEmail: Option<string> := None;
    var vendorPhone: Option<string> := None;
    var vendorDisplayName: Option<string> := None;
    var expiresInHours := 72;
    var maxDownloads := 3;
    var note: Option<string> := None;
    var cuiAttested := false;
    for i := 0 to |items|
      invariant Fold(true, items[..i]) == Some(Form(filename, fileBytes, vendorEmail, vendorPhone,
                  vendorDisplayName, expiresInHours, maxDownloads, note, cuiAttested))
    {
      FoldStep(true, items, i);
      var field := items[i];
      if field.Broken? {
        return Refused(Malformed);
      }
      var name := if field.name.None? then "" else field.name.value;
      if name == "file" {
        filename := field.fileName;
        if field.bytes.None? {
          return Refused(Malformed);
        }
        fileBytes := field.bytes;
      } else if IsTextField(name) {
        if field.text.None? {
          return Refused(Malformed);
        }
        var t := field.text.value;
        if name == "vendor_email" {
          vendorEmail := Some(t);
        } else if name == "vendor_phone" {
          vendorPhone := if Trim(t) == "" then None else Some(t);
        } else if name == "vendor_display_name" {
          vendorDisplayName := Some(t);
        } else if name == "expires_in_hours" {
          expiresInHours := ParseU32(t, 72);
        } else if name == "max_downloads" {
          maxDownloads := ParseU32(t, 3);
        } else {
          note := if Trim(t) == "" then None else Some(t);
        }
      } else if name == "cui_attested" {
        var t := if field.text.None? then "" else field.text.value;
        EmptyIsNo();
        cuiAttested := SaysYes(t);
      }
    }
    assert items[..|items|] == items;
    r := Checked(lower, filename, fileBytes, vendorEmail, vendorPhone, vendorDisplayName,
                 expiresInHours, maxDownloads, note, cuiAttested, owner, caller);
  }

  lemma EmptyIsNo()
    ensures !SaysYes("")
  {
  }

  /** The checks that follow both loops, in the same order in both. */
  method Checked(lower: string -> string, filename: Option<string>, fileBytes: Option<Bytes>,
                 vendorEmail: Option<string>, vendorPhone: Option<string>, vendorDisplayName: Option<string>,
                 expiresInHours: nat, maxDownloads: nat, note: Option<string>, cuiAttested: bool,
                 owner: Uuid, caller: Caller) returns (r: Reply)
    ensures r == Finish(lower, Form(filename, fileBytes, vendorEmail, vendorPhone, vendorDisplayName,
                                    expiresInHours, maxDownloads, note, cuiAttested), owner, caller)
  {
    if filename.None? || filename.value == "" {
      return Refused(NoFile);
    }
    if fileBytes.None? || fileBytes.value == [] {
      return Refused(EmptyFile);
    }
    if vendorEmail.None? || lower(Trim(vendorEmail.value)) == "" {
      return Refused(NoEmail);
    }
    if vendorDisplayName.None? || Trim(vendorDisplayName.value) == "" {
      return Refused(NoName);
    }
    if !cuiAttested {
      return Refused(NotAttested);
    }
    return Accepted(NewShareRequest(filename.value, fileBytes.value, lower(Trim(vendorEmail.value)), vendorPhone,
                                    Trim(vendorDisplayName.value), expiresInHours, maxDownloads, note,
                                    cuiAttested, owner, caller));
  }

  lemma FoldStep(api: bool, items: seq<Item>, i: nat)
    requires i < |items| && Fold(api, items[..i]).Some?
    ensures Fold(api, items[..i + 1]) == Absorb(api, Fold(api, items[..i]).value, items[i])
    ensures Fold(api, items[..i + 1]).None? ==> Fold(api, items).None?
  {
    assert items[..i + 1][..i] == items[..i];
    if Fold(api, items[..i + 1]).None? {
      FailureStays(api, items, i + 1);
    }
  }

  lemma {:induction false} FailureStays(api: bool, items: seq<Item>, k: nat)
    requires k <= |items| && Fold(api, items[..k]).None?
    ensures Fold(api, items).None?
  {
    if k == |items| {
      assert items[..k] == items;
    } else {
      assert items[..|items| - 1][..k] == items[..k];
      FailureStays(api, items[..|items| - 1], k);
    }
  }

  // ----- what a field sequence means, whatever its order --------------------------------

  /** The last field of that name, if there is one. */
  function LastNamed(items: seq<Item>, name: string): (r: Option<Item>)
    ensures r.Some? ==> r.value.Field? && r.value in items && NameOf(r.value) == name
  {
    if items == [] then None
    else
      var item := items[|items| - 1];
      if item.Field? && NameOf(item) == name then Some(item) else LastNamed(items[..|items| - 1], name)
  }

  /** A field neither handler can read. */
  predicate Unreadable(item: Item) {
    || item.Broken?
    || (NameOf(item) == "file" && item.bytes.None?)
    || (IsTextField(NameOf(item)) && item.text.None?)
  }

  function LastText(items: seq<Item>, name: string): Option<string> {
    var item := LastNamed(items, name);
    if item.None? then None else item.value.text
  }

  function NonBlank(t: Option<string>): Option<string> {
    if t.None? then None else UnlessBlank(t.value)
  }

  function NumberOr(t: Option<string>, default: nat): nat {
    if t.None? then default else ParseU32(t.value, default)
  }

  /** The names of the text fields, told apart by a letter. */
  lemma TextNames()
    ensures "vendor_email"[7] == 'e' && "vendor_phone"[7] == 'p' && "vendor_display_name"[7] == 'd'
    ensures |"expires_in_hours"| == 16 && |"max_downloads"| == 13 && |"note"| == 4 && |"file"| == 4
    ensures |"vendor_email"| == |"vendor_phone"| == |"cui_attested"| == 12 && |"vendor_display_name"| == 19
    ensures "cui_attested"[0] == 'c' && "vendor_email"[0] == 'v' && "vendor_phone"[0] == 'v'
    ensures "note"[0] == 'n' && "file"[0] == 'f'
  {
  }

  function Takes<T>(item: Item, name: string, given: T, before: T): T
    requires item.Field?
  {
    if NameOf(item) == name then given else before
  }

  /** The field changes what its name says, and nothing else but perhaps the attestation. */
  predicate Sets(f: Form, g: Form, item: Item)
    requires item.Field?
  {
    && g.fileName == Takes(item, "file", item.fileName, f.fileName)
    && g.fileBytes == Takes(item, "file", item.bytes, f.fileBytes)
    && g.email == Takes(item, "vendor_email", item.text, f.email)
    && g.displayName == Takes(item, "vendor_display_name", item.text, f.displayName)
    && g.phone == Takes(item, "vendor_phone", NonBlank(item.text), f.phone)
    && g.note == Takes(item, "note", NonBlank(item.text), f.note)
    && g.expires == Takes(item, "expires_in_hours", NumberOr(item.text, 72), f.expires)
    && g.maxDownloads == Takes(item, "max_downloads", NumberOr(item.text, 3), f.maxDownloads)
  }

  lemma AbsorbSets(api: bool, f: Form, item: Item)
    requires !Unreadable(item)
    ensures Absorb(api, f, item).Some? && Sets(f, Absorb(api, f, item).value, item)
  {
    TextNames();
    hide ParseU32, UnlessBlank, Attests;
  }

  lemma {:induction false} FoldFails(api: bool, items: seq<Item>)
    ensures Fold(api, items).None? <==> exists i :: 0 <= i < |items| && Unreadable(items[i])
  {
    if items != [] {
      var init, item := items[..|items| - 1], items[|items| - 1];
      FoldFails(api, init);
      if !Unreadable(item) && Fold(api, init).Some? {
        AbsorbSets(api, Fold(api, init).value, item);
      }
      hide SetText, Attests;
      assert forall i | 0 <= i < |init| :: items[i] == init[i];
    }
  }

  lemma LastNamedSnoc(items: seq<Item>, name: string)
    requires items != [] && !Unreadable(items[|items| - 1])
    ensures var init, item := items[..|items| - 1], items[|items| - 1];
      && LastNamed(items, name) == Takes(item, name, Some(item), LastNamed(init, name))
      && LastText(items, name) == Takes(item, name, item.text, LastText(init, name))
  {
    hide IsTextField;
  }

  /** The form that the last field of each name makes. */
  ghost predicate IsForm(f: Form, items: seq<Item>) {
    var file := LastNamed(items, "file");
    && f.fileName == (if file.None? then None else file.value.fileName)
    && f.fileBytes == (if file.None? then None else file.value.bytes)
    && f.email == LastText(items, "vendor_email")
    && f.displayName == LastText(items, "vendor_display_name")
    && f.phone == NonBlank(LastText(items, "vendor_phone"))
    && f.note == NonBlank(LastText(items, "note"))
    && f.expires == NumberOr(LastText(items, "expires_in_hours"), 72)
    && f.maxDownloads == NumberOr(LastText(items, "max_downloads"), 3)
  }

  lemma FormSnoc(f: Form, g: Form, items: seq<Item>)
    requires items != [] && !Unreadable(items[|items| - 1])
    requires IsForm(f, items[..|items| - 1]) && Sets(f, g, items[|items| - 1])
    ensures IsForm(g, items)
  {
    LastNamedSnoc(items, "file");
    LastNamedSnoc(items, "vendor_email");
    LastNamedSnoc(items, "vendor_display_name");
    LastNamedSnoc(items, "vendor_phone");
    LastNamedSnoc(items, "note");
    LastNamedSnoc(items, "expires_in_hours");
    LastNamedSnoc(items, "max_downloads");
    hide LastNamed, LastText, NonBlank, NumberOr, NameOf;
  }

  /**
   The loops fail exactly when some field cannot be read. Otherwise the last field of each name counts: an
   unknown name counts for nothing, a blank phone or note is none, and a missing or unreadable number is the default.
   */
  lemma {:induction false} FoldMeans(api: bool, items: seq<Item>)
    ensures Fold(api, items).None? <==> exists i :: 0 <= i < |items| && Unreadable(items[i])
    ensures Fold(api, items).Some? ==> IsForm(Fold(api, items).value, items)
  {
    FoldFails(api, items);
    if items != [] && Fold(api, items).Some? {
      var init, item := items[..|items| - 1], items[|items| - 1];
      FoldMeans(api, init);
      AbsorbSets(api, Fold(api, init).value, item);
      hide Absorb, IsForm, Sets;
      FormSnoc(Fold(api, init).value, Fold(api, items).value, items);
    }
  }

  // ----- agreement --------------------------------------------------------------------

  /** The last attestation field, if there is one. */
  function LastBox(items: seq<Item>): Option<Item> {
    LastNamed(items, "cui_attested")
  }

  lemma FieldNames(name: string)
    ensures IsTextField(name) || name == "file" ==> name != "cui_attested"
  {
    TextNames();
  }

  /** The folds fail together and agree on everything but the attestation, which each reads its own way. */
  lemma {:induction false} FoldsAgree(items: seq<Item>)
    ensures Fold(false, items).None? <==> Fold(true, items).None?
    ensures Fold(false, items).Some? ==>
      var form, api := Fold(false, items).value, Fold(true, items).value;
      var box := LastBox(items);
      && form == api.(attested := form.attested)
      && form.attested == box.Some?
      && api.attested == (box.Some? && Attests(true, box.value))
  {
    if items != [] {
      FoldsAgree(items[..|items| - 1]);
      var item := items[|items| - 1];
      if item.Field? {
        FieldNames(NameOf(item));
      }
    }
  }

  /**
   The API accepts exactly when the form does and the last attestation field says yes, and then both
   build the same request. So whatever the API accepts, the form accepts identically.
   */
  lemma HandlersAgree(lower: string -> string, items: seq<Item>, owner: Uuid, caller: Caller)
    ensures var form, api := Handle(false, lower, items, owner, caller), Handle(true, lower, items, owner, caller);
      var box := LastBox(items);
      && (api.Accepted? <==>
            form.Accepted? && box.Some? && box.value.text.Some?
            && Trim(box.value.text.value) in ["1", "true", "yes", "on"])
      && (api.Accepted? ==> api == form)
  {
    FoldsAgree(items);
  }

  /** What the fields, each by its last of that name, come to. The form takes any attestation, the API a yes. */
  ghost predicate Judges(api: bool, lower: string -> string, items: seq<Item>, owner: Uuid, caller: Caller, r: Reply) {
    var file, box := LastNamed(items, "file"), LastNamed(items, "cui_attested");
    var email, name := LastText(items, "vendor_email"), LastText(items, "vendor_display_name");
    var phone, note := LastText(items, "vendor_phone"), LastText(items, "note");
    if exists i :: 0 <= i < |items| && Unreadable(items[i]) then r == Refused(Malformed)
    else if file.None? || file.value.fileName == None || file.value.fileName == Some("") then r == Refused(NoFile)
    else if file.value.bytes == None || file.value.bytes == Some([]) then r == Refused(EmptyFile)
    else if email.None? || lower(Trim(email.value)) == "" then r == Refused(NoEmail)
    else if name.None? || Trim(name.value) == "" then r == Refused(NoName)
    else if box.None? || (api && (box.value.text.None? || Trim(box.value.text.value) !in ["1", "true", "yes", "on"]))
    then r == Refused(NotAttested)
    else
      r == Accepted(NewShareRequest(
        file.value.fileName.value, file.value.bytes.value, lower(Trim(email.value)),
        if phone.None? || Trim(phone.value) == "" then None else phone, Trim(name.value),
        NumberOr(LastText(items, "expires_in_hours"), 72), NumberOr(LastText(items, "max_downloads"), 3),
        if note.None? || Trim(note.value) == "" then None else note, true, owner, caller))
  }

  lemma BoxRead(api: bool, items: seq<Item>)
    requires Fold(api, items).Some?
    ensures var box := LastNamed(items, "cui_attested");
      Fold(api, items).value.attested
      <==> box.Some? && (api ==> box.value.text.Some? && Trim(box.value.text.value) in ["1", "true", "yes", "on"])
  {
    hide Fold, LastNamed;
    FoldsAgree(items);
  }

  lemma FinishIs(lower: string -> string, f: Form, items: seq<Item>, owner: Uuid, caller: Caller)
    requires IsForm(f, items)
    ensures var file := LastNamed(items, "file");
      var email, name := LastText(items, "vendor_email"), LastText(items, "vendor_display_name");
      var phone, note := LastText(items, "vendor_phone"), LastText(items, "note");
      Finish(lower, f, owner, caller)
      == if file.None? || file.value.fileName == None || file.value.fileName == Some("") then Refused(NoFile)
         else if file.value.bytes == None || file.value.bytes == Some([]) then Refused(EmptyFile)
         else if email.None? || lower(Trim(email.value)) == "" then Refused(NoEmail)
         else if name.None? || Trim(name.value) == "" then Refused(NoName)
         else if !f.attested then Refused(NotAttested)
         else Accepted(NewShareRequest(
           file.value.fileName.value, file.value.bytes.value, lower(Trim(email.value)),
           if phone.None? || Trim(phone.value) == "" then None else phone, Trim(name.value),
           NumberOr(LastText(items, "expires_in_hours"), 72), NumberOr(LastText(items, "max_downloads"), 3),
           if note.None? || Trim(note.value) == "" then None else note, true, owner, caller))
  {
    hide LastNamed, LastText, NumberOr, Trim;
  }

  /**
   Exactly when each handler accepts, why it refuses, and the request it builds: every part of it from the field of
   its own name, whatever else the body holds and in whatever order.
   */
  lemma HandledExactly(api: bool, lower: string -> string, items: seq<Item>, owner: Uuid, caller: Caller)
    ensures Judges(api, lower, items, owner, caller, Handle(api, lower, items, owner, caller))
  {
    FoldMeans(api, items);
    hide Fold, Finish, IsForm, LastNamed, LastText, NumberOr, Trim, Unreadable;
    if Fold(api, items).Some? {
      BoxRead(api, items);
      FinishIs(lower, Fold(api, items).value, items, owner, caller);
    }
  }

  /** Neither handler ever builds an incomplete request. */
  lemma AcceptedIsComplete(api: bool, lower: string -> string, items: seq<Item>, owner: Uuid, caller: Caller)
    requires Handle(api, lower, items, owner, caller).Accepted?
    ensures var req := Handle(api, lower, items, owner, caller).req;
      && req.cuiAttested && req.printFilename != "" && req.printBytes != []
      && req.vendorEmail != "" && req.vendorDisplayName != "" && NoOuterSpace(req.vendorDisplayName)
      && req.expiresInHours < 0x1_0000_0000 && req.maxDownloads < 0x1_0000_0000
      && req.createdBy == owner && req.caller == caller
      && LastBox(items).Some?
      && exists i :: 0 <= i < |items| && items[i].Field? && NameOf(items[i]) == "file"
                     && items[i].fileName == Some(req.printFilename) && items[i].bytes == Some(req.printBytes)
  {
    var f := Fold(api, items).value;
    FormShape(api, items);
    FoldsAgree(items);
    TrimShape(f.displayName.value);
  }

  lemma NumberBound(t: Option<string>, default: nat)
    requires default < 0x1_0000_0000
    ensures NumberOr(t, default) < 0x1_0000_0000
  {
    hide DigitsValue;
  }

  lemma FormShape(api: bool, items: seq<Item>)
    requires Fold(api, items).Some?
    ensures var f := Fold(api, items).value;
      && f.expires < 0x1_0000_0000 && f.maxDownloads < 0x1_0000_0000
      && (f.fileBytes.Some? ==>
            exists i :: 0 <= i < |items| && items[i].Field? && NameOf(items[i]) == "file"
                        && items[i].fileName == f.fileName && items[i].bytes == f.fileBytes)
  {
    hide Fold, NumberOr, LastNamed, LastText, NonBlank, IsTextField;
    FoldMeans(api, items);
    NumberBound(LastText(items, "expires_in_hours"), 72);
    NumberBound(LastText(items, "max_downloads"), 3);
    assert LastNamed(items, "file").Some? ==> LastNamed(items, "file").value in items;
  }
}
