/** Share links of files.service.ts: the checks a visitor must pass, the two segments of a
    download (read and validate, then write the count that was read plus one), and the table. */
module ShareLinks {
  import opened Wrappers
  import opened Passwords

  datatype ShareLink = ShareLink(
    id: string,
    tenantId: string,
    fileId: string,
    shareToken: string,
    passwordHash: Option<PasswordHash>,
    expiresAt: Option<int>,
    maxDownloads: Option<nat>,
    downloadCount: nat,
    viewCount: nat,
    isActive: bool,
    lastAccessedAt: Option<int>)

  datatype AccessError =
    | LinkNotFound
    | LinkRevoked
    | LinkExpired
    | DownloadLimitReached
    | PasswordRequired
    | InvalidPassword

  /** The limit in force: null and 0 both mean "no limit", since the code tests truthiness. */
  function Limit(link: ShareLink): Option<nat> {
    if link.maxDownloads.Some? && link.maxDownloads.value != 0 then link.maxDownloads else None
  }

  predicate PasswordAccepted(link: ShareLink, password: Option<string>) {
    link.passwordHash.None? || (password == Some(link.passwordHash.value.password) && password.value != "")
  }

  /** The checks of validateShareLink on the row that was read, in order. */
  function Refusal(link: ShareLink, password: Option<string>, checkDownloadLimit: bool, now: int): Option<AccessError> {
    if !link.isActive then Some(LinkRevoked)
    else if link.expiresAt.Some? && now > link.expiresAt.value then Some(LinkExpired)
    else if checkDownloadLimit && Limit(link).Some? && link.downloadCount >= Limit(link).value then
      Some(DownloadLimitReached)
    else if link.passwordHash.Some? && (password.None? || password.value == "") then Some(PasswordRequired)
    else if link.passwordHash.Some? && Bcrypt(password.value) != link.passwordHash.value then Some(InvalidPassword)
    else None
  }

  /** The row after a download that had read `snapshot`; only these two columns are written. */
  function AfterDownload(row: ShareLink, snapshot: ShareLink, now: int): ShareLink {
    row.(downloadCount := snapshot.downloadCount + 1, lastAccessedAt := Some(now))
  }

  function AfterView(row: ShareLink, snapshot: ShareLink, now: int): ShareLink {
    row.(viewCount := snapshot.viewCount + 1, lastAccessedAt := Some(now))
  }

  function NewLink(id: string, tenantId: string, fileId: string, shareToken: string, password: Option<string>,
                   expiresAt: Option<int>, maxDownloads: Option<nat>): ShareLink
  {
    var hash := if password.Some? && password.value != "" then Some(Bcrypt(password.value)) else None;
    var limit := if maxDownloads == Some(0) then None else maxDownloads;
    ShareLink(id, tenantId, fileId, shareToken, hash, expiresAt, limit, 0, 0, true, None)
  }

  /** A download is accepted exactly when the link is live, under its limit and the password fits. */
  lemma AcceptedExactlyWhen(link: ShareLink, password: Option<string>, now: int)
    ensures Refusal(link, password, true, now).None? <==>
      && link.isActive
      && (link.expiresAt.Some? ==> now <= link.expiresAt.value)
      && (Limit(link).Some? ==> link.downloadCount < Limit(link).value)
      && PasswordAccepted(link, password)
  {
    if link.passwordHash.Some? && password.Some? {
      assert Bcrypt(password.value) == link.passwordHash.value <==> password.value == link.passwordHash.value.password;
    }
  }

  /** The file a granted request hands out, and the count it reports. */
  datatype Access = Access(fileId: string, count: nat)

  ghost predicate Expired(link: ShareLink, now: int) {
    link.expiresAt.Some? && link.expiresAt.value < now
  }

  ghost predicate UsedUp(link: ShareLink) {
    link.maxDownloads.Some? && 0 < link.maxDownloads.value <= link.downloadCount
  }

  /** Which answer a visitor gets, check by check. */
  ghost predicate Answers(link: ShareLink, password: Option<string>, limited: bool, now: int, e: Option<AccessError>) {
    var open := link.isActive && !Expired(link, now) && !(limited && UsedUp(link));
    var given := if password.Some? then password.value else "";
    && (e == Some(LinkRevoked) <==> !link.isActive)
    && (e == Some(LinkExpired) <==> link.isActive && Expired(link, now))
    && (e == Some(DownloadLimitReached) <==> link.isActive && !Expired(link, now) && limited && UsedUp(link))
    && (e == Some(PasswordRequired) <==> open && link.passwordHash.Some? && given == "")
    && (e == Some(InvalidPassword) <==>
          open && link.passwordHash.Some? && given != "" && given != link.passwordHash.value.password)
    && (e == None <==>
          open && (link.passwordHash.None? || (given != "" && given == link.passwordHash.value.password)))
  }

  lemma RefusalAnswers(link: ShareLink, password: Option<string>, limited: bool, now: int)
    ensures Answers(link, password, limited, now, Refusal(link, password, limited, now))
  {
    if link.passwordHash.Some? && password.Some? {
      assert Bcrypt(password.value) == link.passwordHash.value <==> password.value == link.passwordHash.value.password;
    }
  }

  /** The table holds, under this token, a link of this tenant with this id. */
  ghost predicate IsLinkOf(links: map<string, ShareLink>, shareToken: string, tenantId: string, id: string) {
    shareToken in links && links[shareToken].id == id && links[shareToken].tenantId == tenantId
  }

  /** A view is accepted exactly when the link is live and the password fits, whatever has been downloaded. */
  predicate ViewAccepted(link: ShareLink, password: Option<string>, now: int) {
    && link.isActive
    && (link.expiresAt.Some? ==> now <= link.expiresAt.value)
    && PasswordAccepted(link, password)
  }

  lemma ViewAcceptedExactlyWhen(link: ShareLink, password: Option<string>, now: int)
    ensures Refusal(link, password, false, now).None? <==> ViewAccepted(link, password, now)
  {
    if link.passwordHash.Some? && password.Some? {
      assert Bcrypt(password.value) == link.passwordHash.value <==> password.value == link.passwordHash.value.password;
    }
  }

  /** A link just created with this password and expiry: whoever gives the password, and no one else, may
      download until it expires. An empty password is no password, a limit of 0 no limit. */
  ghost predicate OpensFor(link: ShareLink, password: Option<string>, expiresAt: Option<int>) {
    forall given, now :: Refusal(link, given, true, now).None? <==>
      && (expiresAt.Some? ==> now <= expiresAt.value)
      && (password.None? || password.value == "" || given == password)
  }

  lemma NewLinkOpens(id: string, tenantId: string, fileId: string, shareToken: string, password: Option<string>,
                     expiresAt: Option<int>, maxDownloads: Option<nat>)
    ensures OpensFor(NewLink(id, tenantId, fileId, shareToken, password, expiresAt, maxDownloads), password, expiresAt)
  {
    var link := NewLink(id, tenantId, fileId, shareToken, password, expiresAt, maxDownloads);
    forall given, now
      ensures Refusal(link, given, true, now).None? <==>
        && (expiresAt.Some? ==> now <= expiresAt.value)
        && (password.None? || password.value == "" || given == password)
    {
      AcceptedExactlyWhen(link, given, now);
    }
  }

  /** The file_share_link table. Rows are keyed by their unique share token. */
  class ShareLinkTable {
    var links: map<string, ShareLink>

    ghost predicate Valid()
      reads this
    {
      && (forall t <- links :: links[t].shareToken == t)
      && (forall t, u | t in links && u in links && links[t].id == links[u].id :: t == u)
    }

    constructor ()
      ensures Valid() && links == map[]
    {
      links := map[];
    }

    method CreateShareLink(id: string, tenantId: string, fileId: string, fileVisible: bool, shareToken: string,
                           password: Option<string>, expiresAt: Option<int>, maxDownloads: Option<nat>)
      returns (created: bool)
      requires Valid()
      requires shareToken !in links && forall t <- links :: links[t].id != id  // random 256-bit token and id
      modifies this
      ensures Valid()
      ensures created == fileVisible
      ensures !created ==> links == old(links)
      ensures created ==>
        && shareToken in links && links == old(links)[shareToken := links[shareToken]]
        && var link := links[shareToken];
        && link.id == id && link.tenantId == tenantId && link.fileId == fileId && link.shareToken == shareToken
        && link.downloadCount == 0 && link.viewCount == 0 && link.isActive && link.lastAccessedAt.None?
        && link.expiresAt == expiresAt && link.maxDownloads == (if maxDownloads == Some(0) then None else maxDownloads)
        && OpensFor(link, password, expiresAt)
        && IsLinkOf(links, shareToken, tenantId, id)
    {
      NewLinkOpens(id, tenantId, fileId, shareToken, password, expiresAt, maxDownloads);
      if !fileVisible {
        return false;
      }
      links := links[shareToken := NewLink(id, tenantId, fileId, shareToken, password, expiresAt, maxDownloads)];
      return true;
    }

    method ValidateShareLink(shareToken: string, password: Option<string>, checkDownloadLimit: bool, now: int)
      returns (r: Result<ShareLink, AccessError>)
      ensures r == Err(LinkNotFound) <==> shareToken !in links
      ensures r.Ok? <==> shareToken in links && Refusal(links[shareToken], password, checkDownloadLimit, now).None?
      ensures r.Ok? ==> r.value == links[shareToken]
      ensures shareToken in links ==>
        Answers(links[shareToken], password, checkDownloadLimit, now, if r.Ok? then None else Some(r.error))
    {
      if shareToken !in links {
        return Err(LinkNotFound);
      }
      RefusalAnswers(links[shareToken], password, checkDownloadLimit, now);
      var refusal := Refusal(links[shareToken], password, checkDownloadLimit, now);
      if refusal.Some? {
        return Err(refusal.value);
      }
      return Ok(links[shareToken]);
    }

    /** With nothing in between, a granted download raises the stored count by exactly one. */
    method DownloadShareLink(shareToken: string, password: Option<string>, now: int)
      returns (r: Result<Access, AccessError>)
      requires Valid()
      modifies this
      ensures Valid()
      ensures r.Ok? <==>
        && shareToken in old(links)
        && Refusal(old(links[shareToken]), password, true, now).None?
      ensures r.Err? ==> links == old(links)
      ensures r.Ok? ==>
        && links.Keys == old(links.Keys)
        && r.value == Access(old(links[shareToken].fileId), old(links[shareToken].downloadCount) + 1)
        && links[shareToken] ==
           old(links[shareToken]).(downloadCount := r.value.count, lastAccessedAt := Some(now))
        && (forall t <- links | t != shareToken :: links[t] == old(links[t]))
    {
      var found := ValidateShareLink(shareToken, password, true, now);
      if found.Err? {
        return Err(found.error);
      }
      links := links[shareToken := AfterDownload(links[shareToken], found.value, now)];
      return Ok(Access(found.value.fileId, found.value.downloadCount + 1));
    }

    /** A view is never held to the download limit and never uses it up. */
    method ViewShareLink(shareToken: string, password: Option<string>, now: int)
      returns (r: Result<Access, AccessError>)
      requires Valid()
      modifies this
      ensures Valid()
      ensures r.Ok? <==> shareToken in old(links) && ViewAccepted(old(links[shareToken]), password, now)
      ensures r.Err? ==> links == old(links) && r.error != DownloadLimitReached
      ensures r.Ok? ==>
        && shareToken in old(links)
        && r.value == Access(old(links[shareToken].fileId), old(links[shareToken].viewCount) + 1)
        && links == old(links)[shareToken :=
             old(links[shareToken]).(viewCount := r.value.count, lastAccessedAt := Some(now))]
    {
      if shareToken in links {
        ViewAcceptedExactlyWhen(links[shareToken], password, now);
      }
      var found := ValidateShareLink(shareToken, password, false, now);
      if found.Err? {
        return Err(found.error);
      }
      links := links[shareToken := AfterView(links[shareToken], found.value, now)];
      return Ok(Access(found.value.fileId, found.value.viewCount + 1));
    }

    method RevokeShareLink(tenantId: string, shareLinkId: string) returns (found: bool)
      requires Valid()
      modifies this
      ensures Valid()
      ensures found <==> exists t :: IsLinkOf(old(links), t, tenantId, shareLinkId)
      ensures links.Keys == old(links.Keys)
      ensures forall t <- links ::
        links[t] == (if found && old(links)[t].id == shareLinkId
                     then old(links)[t].(isActive := false) else old(links)[t])
    {
      if t :| t in links && links[t].id == shareLinkId && links[t].tenantId == tenantId {
        assert IsLinkOf(links, t, tenantId, shareLinkId);
        links := links[t := links[t].(isActive := false)];
        return true;
      }
      return false;
    }
  }
}
