/**
 * Request types and their `Validate` methods (types.go).  Each validator
 * checks its rules in a fixed order and reports the first one that fails;
 * `None` stands for Go's nil error.  Lengths are Go `len`, i.e. bytes of the
 * UTF-8 encoding, which `Utf8Len` computes from the characters.
 */
module Validation {
  import opened Wrappers
  import opened Urls
  import Content

  // ---- byte length of a string ----

  function CharBytes(c: char): nat {
    if c as int < 0x80 then 1
    else if c as int < 0x800 then 2
    else if c as int < 0x1_0000 then 3
    else 4
  }

  /** Go's `len` of a string: the number of bytes of its UTF-8 encoding. */
  function Utf8Len(s: string): nat {
    if s == [] then 0 else CharBytes(s[0]) + Utf8Len(s[1..])
  }

  lemma {:induction false} Utf8LenBounds(s: string)
    ensures |s| <= Utf8Len(s) <= 4 * |s|
  {
    if s != [] {
      Utf8LenBounds(s[1..]);
    }
  }

  /** For ASCII text the byte length is the character count. */
  lemma {:induction false} Utf8LenAscii(s: string)
    requires forall i :: 0 <= i < |s| ==> s[i] as int < 0x80
    ensures Utf8Len(s) == |s|
  {
    if s != [] {
      Utf8LenAscii(s[1..]);
    }
  }

  // ---- ordered rules ----

  /** One check of a validator: whether it holds and the message if it does not. */
  datatype Rule = Rule(holds: bool, message: string)

  /** The message of the first rule that does not hold, or None when all hold. */
  function FirstFailure(rules: seq<Rule>): Option<string> {
    if rules == [] then None
    else if !rules[0].holds then Some(rules[0].message)
    else FirstFailure(rules[1..])
  }

  /** What FirstFailure means: None exactly when every rule holds, and
      otherwise the message of a failing rule all of whose predecessors hold. */
  lemma {:induction false} FirstFailureMeaning(rules: seq<Rule>)
    ensures FirstFailure(rules).None? <==> forall i :: 0 <= i < |rules| ==> rules[i].holds
    ensures FirstFailure(rules).Some? ==>
      exists i :: 0 <= i < |rules| && !rules[i].holds && rules[i].message == FirstFailure(rules).value
                  && forall j :: 0 <= j < i ==> rules[j].holds
  {
    if rules != [] && rules[0].holds {
      FirstFailureMeaning(rules[1..]);
      assert forall i :: 1 <= i < |rules| ==> rules[1..][i - 1] == rules[i];
      if FirstFailure(rules).Some? {
        var i :| 0 <= i < |rules[1..]| && !rules[1..][i].holds && rules[1..][i].message == FirstFailure(rules).value
                  && forall j :: 0 <= j < i ==> rules[1..][j].holds;
        assert !rules[i + 1].holds && forall j :: 0 <= j < i + 1 ==> rules[j].holds;
      }
    }
  }

  /** When the first `k` rules hold, the outcome is decided by rule `k`. */
  lemma {:induction false} FirstFailureAt(rules: seq<Rule>, k: nat)
    requires k <= |rules|
    requires forall j :: 0 <= j < k ==> rules[j].holds
    ensures k < |rules| && !rules[k].holds ==> FirstFailure(rules) == Some(rules[k].message)
    ensures k == |rules| ==> FirstFailure(rules) == None
  {
    if k > 0 {
      FirstFailureAt(rules[1..], k - 1);
    }
  }

  // ---- messages ----

  const AccessTokenRequired := "access_token is required"
  const ShortNameRequired := "short_name is required"
  const ShortNameTooLong := "short_name must be at most 32 characters"
  const AuthorNameTooLong := "author_name must be at most 128 characters"
  const AuthorUrlTooLong := "author_url must be at most 512 characters"
  const AuthorUrlInvalid := "author_url must be a valid URL"
  const TitleRequired := "title is required"
  const TitleTooLong := "title must be at most 256 characters"
  const ContentRequired := "content is required"
  const PathRequired := "path is required"
  const OffsetNegative := "offset must be non-negative"
  const LimitOutOfRange := "limit must be between 0 and 200"
  const YearOutOfRange := "year must be between 2000 and 2100"
  const MonthOutOfRange := "month must be between 1 and 12"
  const DayOutOfRange := "day must be between 1 and 31"
  const HourOutOfRange := "hour must be between 0 and 24"

  // ---- account requests ----

  datatype CreateAccountRequest = CreateAccountRequest(shortName: string, authorName: string, authorUrl: string)

  function CreateAccountRules(r: CreateAccountRequest): seq<Rule> {
    [ Rule(r.shortName != "", ShortNameRequired),
      Rule(Utf8Len(r.shortName) <= 32, ShortNameTooLong),
      Rule(Utf8Len(r.authorName) <= 128, AuthorNameTooLong),
      Rule(Utf8Len(r.authorUrl) <= 512, AuthorUrlTooLong),
      Rule(r.authorUrl == "" || IsValidUrl(r.authorUrl), AuthorUrlInvalid) ]
  }

  /** A request is accepted exactly when it meets every limit. */
  function ValidateCreateAccount(r: CreateAccountRequest): (err: Option<string>)
    ensures err.None? <==>
      && r.shortName != "" && Utf8Len(r.shortName) <= 32 && Utf8Len(r.authorName) <= 128
      && Utf8Len(r.authorUrl) <= 512 && (r.authorUrl == "" || IsValidUrl(r.authorUrl))
  {
    if r.shortName == "" then Some(ShortNameRequired)
    else if Utf8Len(r.shortName) > 32 then Some(ShortNameTooLong)
    else if Utf8Len(r.authorName) > 128 then Some(AuthorNameTooLong)
    else if Utf8Len(r.authorUrl) > 512 then Some(AuthorUrlTooLong)
    else if r.authorUrl != "" && !IsValidUrl(r.authorUrl) then Some(AuthorUrlInvalid)
    else None
  }

  /** Checks run in this order and the first failing one is reported: empty
      short name, short name over 32 bytes, author name over 128 bytes, author
      URL over 512 bytes, non-empty author URL that is not valid. */
  lemma ValidateCreateAccountInOrder(r: CreateAccountRequest)
    ensures ValidateCreateAccount(r) == FirstFailure(CreateAccountRules(r))
  {
    var rs := CreateAccountRules(r);
    if r.shortName == "" {
      FirstFailureAt(rs, 0);
    } else if Utf8Len(r.shortName) > 32 {
      FirstFailureAt(rs, 1);
    } else if Utf8Len(r.authorName) > 128 {
      FirstFailureAt(rs, 2);
    } else if Utf8Len(r.authorUrl) > 512 {
      FirstFailureAt(rs, 3);
    } else if r.authorUrl != "" && !IsValidUrl(r.authorUrl) {
      FirstFailureAt(rs, 4);
    } else {
      FirstFailureAt(rs, 5);
    }
  }

  datatype EditAccountInfoRequest =
    EditAccountInfoRequest(accessToken: string, shortName: string, authorName: string, authorUrl: string)

  function EditAccountInfoRules(r: EditAccountInfoRequest): seq<Rule> {
    [ Rule(r.accessToken != "", AccessTokenRequired),
      Rule(r.shortName == "" || Utf8Len(r.shortName) <= 32, ShortNameTooLong),
      Rule(Utf8Len(r.authorName) <= 128, AuthorNameTooLong),
      Rule(Utf8Len(r.authorUrl) <= 512, AuthorUrlTooLong),
      Rule(r.authorUrl == "" || IsValidUrl(r.authorUrl), AuthorUrlInvalid) ]
  }

  /** A request is accepted exactly when it carries a token and meets every limit. */
  function ValidateEditAccountInfo(r: EditAccountInfoRequest): (err: Option<string>)
    ensures err.None? <==>
      && r.accessToken != "" && Utf8Len(r.shortName) <= 32 && Utf8Len(r.authorName) <= 128
      && Utf8Len(r.authorUrl) <= 512 && (r.authorUrl == "" || IsValidUrl(r.authorUrl))
  {
    if r.accessToken == "" then Some(AccessTokenRequired)
    else if r.shortName != "" && Utf8Len(r.shortName) > 32 then Some(ShortNameTooLong)
    else if Utf8Len(r.authorName) > 128 then Some(AuthorNameTooLong)
    else if Utf8Len(r.authorUrl) > 512 then Some(AuthorUrlTooLong)
    else if r.authorUrl != "" && !IsValidUrl(r.authorUrl) then Some(AuthorUrlInvalid)
    else None
  }

  /** Checks run in this order and the first failing one is reported: missing
      token, non-empty short name over 32 bytes, then the author checks of
      account creation. */
  lemma ValidateEditAccountInfoInOrder(r: EditAccountInfoRequest)
    ensures ValidateEditAccountInfo(r) == FirstFailure(EditAccountInfoRules(r))
  {
    var rs := EditAccountInfoRules(r);
    if r.accessToken == "" {
      FirstFailureAt(rs, 0);
    } else if r.shortName != "" && Utf8Len(r.shortName) > 32 {
      FirstFailureAt(rs, 1);
    } else if Utf8Len(r.authorName) > 128 {
      FirstFailureAt(rs, 2);
    } else if Utf8Len(r.authorUrl) > 512 {
      FirstFailureAt(rs, 3);
    } else if r.authorUrl != "" && !IsValidUrl(r.authorUrl) {
      FirstFailureAt(rs, 4);
    } else {
      FirstFailureAt(rs, 5);
    }
  }

  /** Editing is at least as permissive as creating: an account description
      that may be created may also be written by an edit carrying a token, and
      an edit may leave the short name empty. */
  lemma EditAcceptsWhatCreateAccepts(c: CreateAccountRequest, token: string)
    requires token != ""
    requires ValidateCreateAccount(c).None?
    ensures ValidateEditAccountInfo(EditAccountInfoRequest(token, c.shortName, c.authorName, c.authorUrl)).None?
    ensures ValidateEditAccountInfo(EditAccountInfoRequest(token, "", c.authorName, c.authorUrl)).None?
  {
  }

  /** The only account fields a caller may ask for. */
  const AccountFields: set<string> := {"short_name", "author_name", "author_url", "auth_url", "page_count"}

  /** The first requested field that is not an account field. */
  function FirstInvalidField(fields: seq<string>): (r: Option<string>)
    ensures r.None? <==> forall i :: 0 <= i < |fields| ==> fields[i] in AccountFields
    ensures r.Some? ==> exists i :: 0 <= i < |fields| && fields[i] == r.value && r.value !in AccountFields
                           && forall j :: 0 <= j < i ==> fields[j] in AccountFields
  {
    if fields == [] then None
    else if fields[0] !in AccountFields then Some(fields[0])
    else
      var r := FirstInvalidField(fields[1..]);
      assert forall i :: 1 <= i < |fields| ==> fields[1..][i - 1] == fields[i];
      r
  }

  datatype GetAccountInfoRequest = GetAccountInfoRequest(accessToken: string, fields: seq<string>)

  function ValidateGetAccountInfo(r: GetAccountInfoRequest): (err: Option<string>)
    ensures err.None? <==> r.accessToken != "" && forall i :: 0 <= i < |r.fields| ==> r.fields[i] in AccountFields
    ensures r.accessToken == "" ==> err == Some(AccessTokenRequired)
    ensures r.accessToken != "" && err.Some? ==>
      exists i :: 0 <= i < |r.fields| && err.value == "invalid field: " + r.fields[i] && r.fields[i] !in AccountFields
                  && forall j :: 0 <= j < i ==> r.fields[j] in AccountFields
  {
    if r.accessToken == "" then Some(AccessTokenRequired)
    else match FirstInvalidField(r.fields)
      case None => None
      case Some(f) => Some("invalid field: " + f)
  }

  // ---- page requests ----

  datatype CreatePageRequest = CreatePageRequest(
    accessToken: string, title: string, authorName: string, authorUrl: string,
    content: seq<Content.Node>, returnContent: bool)

  /** The checks shared by page creation and page editing, after the token (and path). */
  function PageBodyRules(title: string, authorName: string, authorUrl: string, content: seq<Content.Node>): seq<Rule> {
    [ Rule(title != "", TitleRequired),
      Rule(Utf8Len(title) <= 256, TitleTooLong),
      Rule(Utf8Len(authorName) <= 128, AuthorNameTooLong),
      Rule(Utf8Len(authorUrl) <= 512, AuthorUrlTooLong),
      Rule(authorUrl == "" || IsValidUrl(authorUrl), AuthorUrlInvalid),
      Rule(|content| != 0, ContentRequired) ]
  }

  function CreatePageRules(r: CreatePageRequest): seq<Rule> {
    [Rule(r.accessToken != "", AccessTokenRequired)] + PageBodyRules(r.title, r.authorName, r.authorUrl, r.content)
  }

  /** A request is accepted exactly when it carries a token, a title within its
      limit, author fields within theirs, and some content. */
  function ValidateCreatePage(r: CreatePageRequest): (err: Option<string>)
    ensures err.None? <==>
      && r.accessToken != "" && r.title != "" && Utf8Len(r.title) <= 256 && Utf8Len(r.authorName) <= 128
      && Utf8Len(r.authorUrl) <= 512 && (r.authorUrl == "" || IsValidUrl(r.authorUrl)) && |r.content| > 0
  {
    if r.accessToken == "" then Some(AccessTokenRequired)
    else if r.title == "" then Some(TitleRequired)
    else if Utf8Len(r.title) > 256 then Some(TitleTooLong)
    else if Utf8Len(r.authorName) > 128 then Some(AuthorNameTooLong)
    else if Utf8Len(r.authorUrl) > 512 then Some(AuthorUrlTooLong)
    else if r.authorUrl != "" && !IsValidUrl(r.authorUrl) then Some(AuthorUrlInvalid)
    else if |r.content| == 0 then Some(ContentRequired)
    else None
  }

  /** Checks run in this order and the first failing one is reported: missing
      token, empty title, title over 256 bytes, author name over 128 bytes,
      author URL over 512 bytes or not valid, empty content. */
  lemma ValidateCreatePageInOrder(r: CreatePageRequest)
    ensures ValidateCreatePage(r) == FirstFailure(CreatePageRules(r))
  {
    var rs := CreatePageRules(r);
    if r.accessToken == "" {
      FirstFailureAt(rs, 0);
    } else if r.title == "" {
      FirstFailureAt(rs, 1);
    } else if Utf8Len(r.title) > 256 {
      FirstFailureAt(rs, 2);
    } else if Utf8Len(r.authorName) > 128 {
      FirstFailureAt(rs, 3);
    } else if Utf8Len(r.authorUrl) > 512 {
      FirstFailureAt(rs, 4);
    } else if r.authorUrl != "" && !IsValidUrl(r.authorUrl) {
      FirstFailureAt(rs, 5);
    } else if |r.content| == 0 {
      FirstFailureAt(rs, 6);
    } else {
      FirstFailureAt(rs, 7);
    }
  }

  datatype EditPageRequest = EditPageRequest(
    accessToken: string, path: string, title: string, authorName: string, authorUrl: string,
    content: seq<Content.Node>, returnContent: bool)

  function EditPageRules(r: EditPageRequest): seq<Rule> {
    [Rule(r.accessToken != "", AccessTokenRequired), Rule(r.path != "", PathRequired)]
      + PageBodyRules(r.title, r.authorName, r.authorUrl, r.content)
  }

  /** As for page creation, and the page path must be given. */
  function ValidateEditPage(r: EditPageRequest): (err: Option<string>)
    ensures err.None? <==>
      && r.accessToken != "" && r.path != "" && r.title != "" && Utf8Len(r.title) <= 256
      && Utf8Len(r.authorName) <= 128 && Utf8Len(r.authorUrl) <= 512
      && (r.authorUrl == "" || IsValidUrl(r.authorUrl)) && |r.content| > 0
  {
    if r.accessToken == "" then Some(AccessTokenRequired)
    else if r.path == "" then Some(PathRequired)
    else if r.title == "" then Some(TitleRequired)
    else if Utf8Len(r.title) > 256 then Some(TitleTooLong)
    else if Utf8Len(r.authorName) > 128 then Some(AuthorNameTooLong)
    else if Utf8Len(r.authorUrl) > 512 then Some(AuthorUrlTooLong)
    else if r.authorUrl != "" && !IsValidUrl(r.authorUrl) then Some(AuthorUrlInvalid)
    else if |r.content| == 0 then Some(ContentRequired)
    else None
  }

  /** As for page creation, with a required path checked right after the token. */
  lemma ValidateEditPageInOrder(r: EditPageRequest)
    ensures ValidateEditPage(r) == FirstFailure(EditPageRules(r))
  {
    var rs := EditPageRules(r);
    if r.accessToken == "" {
      FirstFailureAt(rs, 0);
    } else if r.path == "" {
      FirstFailureAt(rs, 1);
    } else if r.title == "" {
      FirstFailureAt(rs, 2);
    } else if Utf8Len(r.title) > 256 {
      FirstFailureAt(rs, 3);
    } else if Utf8Len(r.authorName) > 128 {
      FirstFailureAt(rs, 4);
    } else if Utf8Len(r.authorUrl) > 512 {
      FirstFailureAt(rs, 5);
    } else if r.authorUrl != "" && !IsValidUrl(r.authorUrl) {
      FirstFailureAt(rs, 6);
    } else if |r.content| == 0 {
      FirstFailureAt(rs, 7);
    } else {
      FirstFailureAt(rs, 8);
    }
  }

  /** Editing a page is creating one plus a required path checked right after the token. */
  lemma EditPageIsCreatePagePlusPath(r: EditPageRequest)
    ensures ValidateEditPage(r) ==
      if r.accessToken != "" && r.path == "" then Some(PathRequired)
      else ValidateCreatePage(CreatePageRequest(r.accessToken, r.title, r.authorName, r.authorUrl, r.content, r.returnContent))
  {
  }

  datatype GetPageRequest = GetPageRequest(path: string, returnContent: bool)

  function ValidateGetPage(r: GetPageRequest): (err: Option<string>)
    ensures err.None? <==> r.path != ""
    ensures err.Some? ==> err.value == PathRequired
  {
    if r.path == "" then Some(PathRequired) else None
  }

  datatype GetPageListRequest = GetPageListRequest(accessToken: string, offset: int, limit: int)

  function GetPageListRules(r: GetPageListRequest): seq<Rule> {
    [ Rule(r.accessToken != "", AccessTokenRequired),
      Rule(r.offset >= 0, OffsetNegative),
      Rule(0 <= r.limit <= 200, LimitOutOfRange) ]
  }

  /** A request is accepted exactly when it has a token, a non-negative offset and a limit of 0 to 200. */
  function ValidateGetPageList(r: GetPageListRequest): (err: Option<string>)
    ensures err.None? <==> r.accessToken != "" && r.offset >= 0 && 0 <= r.limit <= 200
  {
    if r.accessToken == "" then Some(AccessTokenRequired)
    else if r.offset < 0 then Some(OffsetNegative)
    else if r.limit < 0 || r.limit > 200 then Some(LimitOutOfRange)
    else None
  }

  /** Checks run in this order and the first failing one is reported: missing
      token, negative offset, limit outside 0..200. */
  lemma ValidateGetPageListInOrder(r: GetPageListRequest)
    ensures ValidateGetPageList(r) == FirstFailure(GetPageListRules(r))
  {
    var rs := GetPageListRules(r);
    if r.accessToken == "" {
      FirstFailureAt(rs, 0);
    } else if r.offset < 0 {
      FirstFailureAt(rs, 1);
    } else if r.limit < 0 || r.limit > 200 {
      FirstFailureAt(rs, 2);
    } else {
      FirstFailureAt(rs, 3);
    }
  }

  datatype GetViewsRequest = GetViewsRequest(path: string, year: int, month: int, day: int, hour: int)

  /** Zero means "not given" for each date part. */
  function GetViewsRules(r: GetViewsRequest): seq<Rule> {
    [ Rule(r.path != "", PathRequired),
      Rule(r.year == 0 || 2000 <= r.year <= 2100, YearOutOfRange),
      Rule(r.month == 0 || 1 <= r.month <= 12, MonthOutOfRange),
      Rule(r.day == 0 || 1 <= r.day <= 31, DayOutOfRange),
      Rule(r.hour == 0 || 0 <= r.hour <= 24, HourOutOfRange) ]
  }

  /** A request is accepted exactly when it names a page and every date part
      it gives lies in its range. */
  function ValidateGetViews(r: GetViewsRequest): (err: Option<string>)
    ensures err.None? <==>
      && r.path != "" && (r.year == 0 || 2000 <= r.year <= 2100) && (r.month == 0 || 1 <= r.month <= 12)
      && (r.day == 0 || 1 <= r.day <= 31) && (r.hour == 0 || 0 <= r.hour <= 24)
  {
    if r.path == "" then Some(PathRequired)
    else if r.year != 0 && (r.year < 2000 || r.year > 2100) then Some(YearOutOfRange)
    else if r.month != 0 && (r.month < 1 || r.month > 12) then Some(MonthOutOfRange)
    else if r.day != 0 && (r.day < 1 || r.day > 31) then Some(DayOutOfRange)
    else if r.hour != 0 && (r.hour < 0 || r.hour > 24) then Some(HourOutOfRange)
    else None
  }

  /** Checks run in this order and the first failing one is reported: empty
      path, then year, month, day and hour, each only when non-zero. */
  lemma ValidateGetViewsInOrder(r: GetViewsRequest)
    ensures ValidateGetViews(r) == FirstFailure(GetViewsRules(r))
  {
    var rs := GetViewsRules(r);
    if r.path == "" {
      FirstFailureAt(rs, 0);
    } else if r.year != 0 && (r.year < 2000 || r.year > 2100) {
      FirstFailureAt(rs, 1);
    } else if r.month != 0 && (r.month < 1 || r.month > 12) {
      FirstFailureAt(rs, 2);
    } else if r.day != 0 && (r.day < 1 || r.day > 31) {
      FirstFailureAt(rs, 3);
    } else if r.hour != 0 && (r.hour < 0 || r.hour > 24) {
      FirstFailureAt(rs, 4);
    } else {
      FirstFailureAt(rs, 5);
    }
  }

  /** A views request that only names a page is valid: every date part may be left unset. */
  lemma GetViewsDatePartsOptional(path: string)
    requires path != ""
    ensures ValidateGetViews(GetViewsRequest(path, 0, 0, 0, 0)).None?
  {
  }

  // ---- the source's test tables ----

  /** Characters from U+0080 to U+07FF take two bytes each. */
  lemma {:induction false} Utf8LenTwoByte(s: string)
    requires forall i :: 0 <= i < |s| ==> 0x80 <= s[i] as int < 0x800
    ensures Utf8Len(s) == 2 * |s|
  {
    if s != [] {
      Utf8LenTwoByte(s[1..]);
    }
  }

  /** Lengths are counted in bytes: seventeen two-byte characters already
      exceed the 32-byte limit on short names, while any ASCII name of 1 to 32
      characters passes it. */
  lemma ShortNameLimitCountsBytes(s: string, t: string)
    requires |s| == 17 && forall i :: 0 <= i < |s| ==> 0x80 <= s[i] as int < 0x800
    requires 1 <= |t| <= 32 && forall i :: 0 <= i < |t| ==> t[i] as int < 0x80
    ensures ValidateCreateAccount(CreateAccountRequest(s, "", "")) == Some(ShortNameTooLong)
    ensures ValidateCreateAccount(CreateAccountRequest(t, "", "")).None?
  {
    Utf8LenTwoByte(s);
    Utf8LenAscii(t);
  }

  /** The rejecting rows of the source's table for account creation, stated
      for every request of that shape, with the byte limits the source checks. */
  lemma CreateAccountRejections(r: CreateAccountRequest)
    ensures r.shortName == "" ==> ValidateCreateAccount(r) == Some(ShortNameRequired)
    ensures |r.shortName| > 32 ==> ValidateCreateAccount(r) == Some(ShortNameTooLong)
    ensures r.shortName != "" && Utf8Len(r.shortName) <= 32 && |r.authorName| > 128 ==>
      ValidateCreateAccount(r) == Some(AuthorNameTooLong)
    ensures r.shortName != "" && Utf8Len(r.shortName) <= 32 && Utf8Len(r.authorName) <= 128
            && Utf8Len(r.authorUrl) <= 512
            && r.authorUrl != "" && !("http://" <= r.authorUrl) && !("https://" <= r.authorUrl) ==>
      ValidateCreateAccount(r) == Some(AuthorUrlInvalid)
  {
    Utf8LenBounds(r.shortName);
    Utf8LenBounds(r.authorName);
  }

  lemma GetPageListExamples()
    ensures ValidateGetPageList(GetPageListRequest("test-token", 0, 10)).None?
    ensures ValidateGetPageList(GetPageListRequest("", 0, 0)) == Some(AccessTokenRequired)
    ensures ValidateGetPageList(GetPageListRequest("test-token", -1, 0)) == Some(OffsetNegative)
    ensures ValidateGetPageList(GetPageListRequest("test-token", 0, 201)) == Some(LimitOutOfRange)
  {
  }

  lemma GetViewsExamples()
    ensures ValidateGetViews(GetViewsRequest("Test-Article-12-15", 2023, 12, 15, 10)).None?
    ensures ValidateGetViews(GetViewsRequest("", 0, 0, 0, 0)) == Some(PathRequired)
    ensures ValidateGetViews(GetViewsRequest("Test-Article-12-15", 1999, 0, 0, 0)) == Some(YearOutOfRange)
    ensures ValidateGetViews(GetViewsRequest("Test-Article-12-15", 0, 13, 0, 0)) == Some(MonthOutOfRange)
    ensures ValidateGetViews(GetViewsRequest("Test-Article-12-15", 0, 0, 32, 0)) == Some(DayOutOfRange)
    ensures ValidateGetViews(GetViewsRequest("Test-Article-12-15", 0, 0, 0, 25)) == Some(HourOutOfRange)
  {
  }

  lemma GetAccountInfoExamples()
    ensures ValidateGetAccountInfo(GetAccountInfoRequest("test-token", ["short_name", "author_name", "page_count"])).None?
    ensures ValidateGetAccountInfo(GetAccountInfoRequest("", [])) == Some(AccessTokenRequired)
    ensures ValidateGetAccountInfo(GetAccountInfoRequest("test-token", ["invalid_field"])) == Some("invalid field: invalid_field")
  {
    var f := "invalid_field";
    assert f[0] == 'i' && f[1] == 'n';
    assert f !in AccountFields;
    assert FirstInvalidField([f]) == Some(f);
    assert "invalid field: " + f == "invalid field: invalid_field";
  }
}
