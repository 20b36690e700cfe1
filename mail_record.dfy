/** The record the ingestion service stores for every fetched message (the `Mail`
    entity), built from the message parser's envelope, and the rule that derives the
    tenant `address` from the joined recipient string. */
module MailRecord {
  import opened Optional
  import opened Text

  /** One mailbox of a parsed address header: display name and, when the header named
      one, its address. */
  datatype EmailAddress = EmailAddress(name: string, address: Option<string>)

  /** One parsed address header line: its mailboxes in header order. */
  datatype AddressObject = AddressObject(value: seq<EmailAddress>)

  /** What the parser gives for the `to` and `cc` headers: nothing, one header object,
      or a list of header objects (when the header occurs several times). */
  datatype AddressField = Absent | One(obj: AddressObject) | Many(objs: seq<AddressObject>)

  /** Attachment metadata, stored as it comes from the parser. */
  datatype Attachment = Attachment(filename: Option<string>, contentType: string, size: nat)

  /** One message header line, stored as it comes from the parser. */
  datatype Header = Header(key: string, value: string)

  /** The structured message the external parser produces from the fetched raw bytes. */
  datatype ParsedMail = ParsedMail(
    to: AddressField,
    from: Option<AddressObject>,
    cc: AddressField,
    subject: Option<string>,
    text: Option<string>,
    html: Option<string>,
    attachments: seq<Attachment>,
    headers: seq<Header>)

  /** The stored record: the columns of the `Mail` entity that the service fills in
      (`text_content`, `html_content` are `textContent`, `htmlContent` here; the
      identifier and the timestamps are assigned by the store). */
  datatype Mail = Mail(
    address: string,
    from: string,
    to: string,
    cc: string,
    subject: string,
    textContent: string,
    htmlContent: string,
    attachments: seq<Attachment>,
    headers: seq<Header>)

  /** `a.address || ''`: a missing or empty address becomes the empty string. */
  function AddressText(a: EmailAddress): string {
    a.address.GetOr("")
  }

  /** The first address of each header object, in order, as `objs.map(t =>
      t.value[0].address)` computes it; `None` when some object has no mailbox, where
      that lookup throws. */
  function FirstAddresses(objs: seq<AddressObject>): (r: Option<seq<string>>)
    ensures r.Some? ==> |r.value| == |objs|
  {
    if objs == [] then Some([])
    else if |objs[0].value| == 0 then None
    else
      match FirstAddresses(objs[1..])
      case None => None
      case Some(rest) => Some([AddressText(objs[0].value[0])] + rest)
  }

  /** True when some header object has no mailbox. */
  ghost predicate HasEmptyObject(objs: seq<AddressObject>) {
    exists i :: 0 <= i < |objs| && |objs[i].value| == 0
  }

  /** The first addresses are found exactly when every header object has a mailbox, and
      then they are the first address of each object, position by position. */
  lemma {:induction false} FirstAddressesSpec(objs: seq<AddressObject>)
    ensures FirstAddresses(objs).None? <==> HasEmptyObject(objs)
    ensures FirstAddresses(objs).Some? ==>
              forall i :: 0 <= i < |objs| ==> FirstAddresses(objs).value[i] == AddressText(objs[i].value[0])
  {
    if objs != [] {
      FirstAddressesSpec(objs[1..]);
      assert forall i :: 1 <= i < |objs| ==> objs[1..][i - 1] == objs[i];
      if |objs[0].value| != 0 && HasEmptyObject(objs) {
        var i :| 0 <= i < |objs| && |objs[i].value| == 0;
        assert objs[1..][i - 1] == objs[i];
      }
    }
  }

  /** Every address of one header object, in order (a missing one as the empty string). */
  function AllAddresses(obj: AddressObject): (r: seq<string>)
    ensures |r| == |obj.value|
    ensures forall i :: 0 <= i < |r| ==> r[i] == AddressText(obj.value[i])
  {
    seq(|obj.value|, i requires 0 <= i < |obj.value| => AddressText(obj.value[i]))
  }

  /** The `to` column: for a list of header objects, the first address of each joined
      with ", "; for a single object, only its first address; otherwise the empty
      string. `None` stands for the TypeError thrown when a `value` list is empty. */
  function ToField(f: AddressField): (r: Option<string>)
    ensures f.Absent? ==> r == Some("")
    ensures f.One? ==> (r.None? <==> |f.obj.value| == 0)
    ensures f.One? && |f.obj.value| > 0 ==> r == Some(AddressText(f.obj.value[0]))
  {
    match f
    case Absent => Some("")
    case One(obj) => if |obj.value| == 0 then None else Some(AddressText(obj.value[0]))
    case Many(objs) =>
      match FirstAddresses(objs)
      case None => None
      case Some(firsts) => Some(Join(firsts))
  }

  /** The `from` column: the first sender address or the empty string; `None` when the
      sender header has no mailbox (the source's `value[0]` lookup throws). */
  function FromField(f: Option<AddressObject>): (r: Option<string>)
    ensures r.None? <==> f.Some? && |f.value.value| == 0
    ensures f.None? ==> r == Some("")
    ensures f.Some? && |f.value.value| > 0 ==> r == Some(AddressText(f.value.value[0]))
  {
    match f
    case None => Some("")
    case Some(obj) => if |obj.value| == 0 then None else Some(AddressText(obj.value[0]))
  }

  /** The `cc` column: all addresses of the single cc object joined with ", ", or the
      empty string. A list of cc objects has no `value` property, so the source's
      `.map` on it throws: `None`. */
  function CcField(f: AddressField): (r: Option<string>)
    ensures r.None? <==> f.Many?
    ensures f.Absent? ==> r == Some("")
    ensures f.One? && |f.obj.value| == 0 ==> r == Some("")
    ensures f.One? && |f.obj.value| == 1 ==> r == Some(AddressText(f.obj.value[0]))
  {
    match f
    case Absent => Some("")
    case One(obj) => Some(Join(AllAddresses(obj)))
    case Many(_) => None
  }

  /** The `cc` column of a single cc header keeps every address: splitting it at ", "
      gives them back, in order, when there is one and none holds a comma. */
  lemma CcFieldOfOneHeader(obj: AddressObject)
    requires |obj.value| >= 1
    requires forall i :: 0 <= i < |obj.value| ==> ',' !in AddressText(obj.value[i])
    ensures CcField(One(obj)).Some?
    ensures var parts := Split(CcField(One(obj)).value);
            |parts| == |obj.value| && forall i :: 0 <= i < |parts| ==> parts[i] == AddressText(obj.value[i])
  {
    SplitJoin(AllAddresses(obj));
  }

  /** A `>` at `b` closes the lazy group `.+?` whose last character may be at `k - 1`
      or later: no line terminator from `k - 1` up to `b`. */
  ghost predicate Closes(s: string, k: nat, b: int) {
    1 <= k <= b < |s| && s[b] == '>' && forall j :: k - 1 <= j < b ==> !IsLineTerminator(s[j])
  }

  /** The nearest `>` that closes the lazy group `.+?` started before `k`, scanning from
      `k`; `None` once a line terminator or the end of `s` comes first. */
  function CloseFrom(s: string, k: nat): (r: Option<nat>)
    requires k >= 1
    ensures r.Some? ==> k <= r.value < |s|
    decreases |s| - k
  {
    if k >= |s| || IsLineTerminator(s[k - 1]) then None
    else if s[k] == '>' then Some(k)
    else CloseFrom(s, k + 1)
  }

  /** `CloseFrom` finds the nearest closing `>`, and finds one whenever one exists. */
  lemma {:induction false} CloseFromSpec(s: string, k: nat)
    requires k >= 1
    ensures CloseFrom(s, k).Some? ==>
              Closes(s, k, CloseFrom(s, k).value)
              && forall b :: k <= b < CloseFrom(s, k).value ==> !Closes(s, k, b)
    ensures CloseFrom(s, k).None? ==> forall b :: !Closes(s, k, b)
    decreases |s| - k
  {
    if k >= |s| || IsLineTerminator(s[k - 1]) {
    } else if s[k] == '>' {
    } else {
      CloseFromSpec(s, k + 1);
      assert forall b :: Closes(s, k + 1, b) <==> Closes(s, k, b) && b != k;
    }
  }

  /** `s` holds a match of `/@(.+?)>/` that starts with the `@` at `a` and ends with the
      `>` at `b`: at least one character between them, none a line terminator. */
  ghost predicate IsMatch(s: string, a: int, b: int) {
    0 <= a && a + 2 <= b < |s| && s[a] == '@' && s[b] == '>'
    && forall j :: a < j < b ==> !IsLineTerminator(s[j])
  }

  /** The match the regular expression reports: the leftmost `@` that starts any match,
      with the nearest `>` that closes it (the lazy quantifier). */
  ghost predicate IsFirstMatch(s: string, a: int, b: int) {
    IsMatch(s, a, b)
    && (forall a', b' :: 0 <= a' < a ==> !IsMatch(s, a', b'))
    && (forall b' :: b' < b ==> !IsMatch(s, a, b'))
  }

  /** The leftmost match of `/@(.+?)>/` whose `@` is at or after position `i`, as the
      positions of its `@` and of its `>`. */
  function FindMatch(s: string, i: nat): (r: Option<(nat, nat)>)
    requires i <= |s|
    ensures r.Some? ==> i <= r.value.0 && r.value.0 + 2 <= r.value.1 < |s|
    decreases |s| - i
  {
    if i == |s| then None
    else if s[i] == '@' && CloseFrom(s, i + 2).Some? then Some((i, CloseFrom(s, i + 2).value))
    else FindMatch(s, i + 1)
  }

  /** `FindMatch` finds the match the regular expression reports among those starting at
      or after `i`, and finds one whenever one exists. */
  lemma {:induction false} FindMatchSpec(s: string, i: nat)
    requires i <= |s|
    ensures FindMatch(s, i).Some? ==>
              var (a, b) := FindMatch(s, i).value;
              IsMatch(s, a, b)
              && (forall a', b' :: i <= a' < a ==> !IsMatch(s, a', b'))
              && (forall b' :: b' < b ==> !IsMatch(s, a, b'))
    ensures FindMatch(s, i).None? ==> forall a', b' :: i <= a' ==> !IsMatch(s, a', b')
    decreases |s| - i
  {
    if i < |s| {
      assert forall b :: IsMatch(s, i, b) <==> s[i] == '@' && Closes(s, i + 2, b);
      CloseFromSpec(s, i + 2);
      if !(s[i] == '@' && CloseFrom(s, i + 2).Some?) {
        FindMatchSpec(s, i + 1);
      }
    }
  }

  /** `s.split('@')[0]`: everything before the first `@`, or all of `s`. */
  function BeforeFirstAt(s: string): (r: string)
    ensures '@' !in r
    ensures r == s || (|r| < |s| && s[..|r|] == r && s[|r|] == '@')
  {
    if s == [] then ""
    else if s[0] == '@' then ""
    else [s[0]] + BeforeFirstAt(s[1..])
  }

  /** The tenant `address` of a stored message, derived from its `to` string: the text
      captured by `/@(.+?)>/` when that matches, otherwise the part before the first `@`.
      `TenantAddressSpec` states what it yields. */
  function TenantAddress(to: string): string {
    match FindMatch(to, 0)
    case Some((a, b)) => to[a + 1..b]
    case None => BeforeFirstAt(to)
  }

  /** The tenant address is total and is (1) the text between the leftmost `@` that starts
      a match of `/@(.+?)>/` and the nearest `>` closing it, whenever some match exists,
      and otherwise (2) the part before the first `@`, which is all of `to` when it has
      no `@`. */
  lemma TenantAddressSpec(to: string)
    ensures forall a, b :: IsFirstMatch(to, a, b) ==> TenantAddress(to) == to[a + 1..b]
    ensures (exists a, b :: IsMatch(to, a, b)) ==>
              exists a, b :: IsFirstMatch(to, a, b) && TenantAddress(to) == to[a + 1..b]
    ensures (forall a, b :: !IsMatch(to, a, b)) ==> TenantAddress(to) == BeforeFirstAt(to)
    ensures '@' !in to ==> TenantAddress(to) == to
  {
    FindMatchSpec(to, 0);
    match FindMatch(to, 0)
    case Some((a, b)) =>
      assert IsFirstMatch(to, a, b);
    case None =>
  }

  /** The record the service saves for a parsed message; `None` when deriving a column
      throws, in which case the message is neither saved nor announced. */
  function BuildRecord(p: ParsedMail): (r: Option<Mail>)
    ensures r.Some? <==> ToField(p.to).Some? && FromField(p.from).Some? && CcField(p.cc).Some?
    ensures r.Some? ==> r.value.to == ToField(p.to).value
    ensures r.Some? ==> r.value.address == TenantAddress(r.value.to)
    ensures r.Some? ==> r.value.from == FromField(p.from).value && r.value.cc == CcField(p.cc).value
    ensures r.Some? ==> (r.value.subject == p.subject.GetOr("")
      && r.value.textContent == p.text.GetOr("") && r.value.htmlContent == p.html.GetOr(""))
    ensures r.Some? ==> r.value.attachments == p.attachments && r.value.headers == p.headers
  {
    var to, from, cc := ToField(p.to), FromField(p.from), CcField(p.cc);
    if to.Some? && from.Some? && cc.Some? then
      Some(Mail(TenantAddress(to.value), from.value, to.value, cc.value, p.subject.GetOr(""),
                p.text.GetOr(""), p.html.GetOr(""), p.attachments, p.headers))
    else None
  }

  /** A display-name recipient yields the domain between `@` and `>`. */
  lemma TenantAddressOfDisplayName()
    ensures TenantAddress("Jane <jane@tenantA.example.com>") == "tenantA.example.com"
  {
    var s := "Jane <jane@tenantA.example.com>";
    assert forall j :: 0 <= j < 10 ==> s[j] != '@';
    assert forall j :: 11 <= j < 30 ==> s[j] != '>' && !IsLineTerminator(s[j]);
    assert IsFirstMatch(s, 10, 30);
    assert s[11..30] == "tenantA.example.com";
    TenantAddressSpec(s);
  }

  /** A bare address has no `>`, so it yields its local part, not its domain. */
  lemma TenantAddressOfBareAddress()
    ensures TenantAddress("user@acme.io") == "user"
  {
    var t := "user@acme.io";
    assert forall j :: 0 <= j < |t| ==> t[j] != '>';
    TenantAddressSpec(t);
    assert t[..4] == "user";
  }

  /** An address with an empty local part yields the empty tenant address. */
  lemma TenantAddressMayBeEmpty()
    ensures TenantAddress("@acme.io") == ""
  {
    var u := "@acme.io";
    assert forall j :: 0 <= j < |u| ==> u[j] != '>';
    TenantAddressSpec(u);
  }

  /** A string without `@` is its own tenant address. */
  lemma TenantAddressWithoutAt()
    ensures TenantAddress("noatsign") == "noatsign"
  {
    var s := "noatsign";
    assert forall j :: 0 <= j < |s| ==> s[j] != '@';
    TenantAddressSpec(s);
  }

  /** The `to` column of a multi-header recipient field fails exactly when some header
      has no mailbox; otherwise it keeps every header's first address: splitting it at
      ", " gives them back, when there is one and none holds a comma. */
  lemma ToFieldOfManyHeaders(objs: seq<AddressObject>)
    ensures ToField(Many(objs)).None? <==> HasEmptyObject(objs)
    ensures ToField(Many(objs)).Some? && |objs| >= 1
            && (forall i :: 0 <= i < |objs| ==> ',' !in AddressText(objs[i].value[0])) ==>
              Split(ToField(Many(objs)).value) == FirstAddresses(objs).value
  {
    FirstAddressesSpec(objs);
    if ToField(Many(objs)).Some? && |objs| >= 1
       && (forall i :: 0 <= i < |objs| ==> ',' !in AddressText(objs[i].value[0])) {
      SplitJoin(FirstAddresses(objs).value);
    }
  }
}
