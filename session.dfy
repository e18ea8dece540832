/** The client session (wechat/wechat.go): the `Wechat` object whose
    methods log in, load the address book, check for new messages and send.
    Every reply of the server is a parameter; the object keeps the state the
    source keeps between calls. */
module Session {
  import opened Wrappers
  import opened Text
  import opened Types
  import opened JsResult
  import opened SyncKey
  import opened Contacts
  import opened SyncCheck
  import opened Media
  import opened LoginFlow

  /** Every member of a bucket has its kind and is indexed by name. */
  predicate Bucket(list: seq<Member>, k: Kind, mm: map<string, Member>)
  {
    forall i :: 0 <= i < |list| ==> |list[i].userName| >= 2 && KindOf(list[i]) == k && list[i].userName in mm
  }

  /** Classifying and indexing a list keeps the buckets sound. */
  lemma BucketGrows(list: seq<Member>, k: Kind, mm: map<string, Member>, ms: seq<Member>)
    requires Bucket(list, k, mm) && Classifiable(ms)
    ensures Bucket(list + OfKind(ms, k), k, Indexed(mm, ms))
  {
    var grown := list + OfKind(ms, k);
    forall i | 0 <= i < |grown|
      ensures |grown[i].userName| >= 2 && KindOf(grown[i]) == k && grown[i].userName in Indexed(mm, ms)
    {
      var x := grown[i];
      IndexedLookup(mm, ms, x.userName);
      if i >= |list| {
        assert x == OfKind(ms, k)[i - |list|];
        assert x in multiset(OfKind(ms, k));
        OfKindExact(ms, k, x);
        assert x in multiset(ms);
        assert x in ms;
        var j :| 0 <= j < |ms| && ms[j] == x;
        assert ms[j].userName == x.userName;
      }
    }
  }

  /** Storing one more member under its own name keeps a bucket sound and
      the index keyed by name. */
  lemma BucketKeeps(list: seq<Member>, k: Kind, mm: map<string, Member>, mb: Member)
    requires Bucket(list, k, mm) && KeyedByName(mm)
    ensures Bucket(list, k, mm[mb.userName := mb]) && KeyedByName(mm[mb.userName := mb])
  {
  }

  /** Loading a member list and storing the user under its own name keeps
      the index keyed by name and the three buckets sound. */
  lemma BucketsReloaded(mm: map<string, Member>, g: seq<Member>, pub: seq<Member>, c: seq<Member>,
                        ms: seq<Member>, mb: Member)
    requires KeyedByName(mm) && Bucket(g, Group, mm) && Bucket(pub, Public, mm) && Bucket(c, Personal, mm)
    requires Classifiable(ms)
    ensures var mm' := Indexed(mm, ms);
            KeyedByName(mm'[mb.userName := mb])
            && Bucket(g + OfKind(ms, Group), Group, mm'[mb.userName := mb])
            && Bucket(pub + OfKind(ms, Public), Public, mm'[mb.userName := mb])
            && Bucket(c + OfKind(ms, Personal), Personal, mm'[mb.userName := mb])
  {
    IndexedKeyed(mm, ms);
    BucketGrows(g, Group, mm, ms);
    BucketGrows(pub, Public, mm, ms);
    BucketGrows(c, Personal, mm, ms);
    var mm' := Indexed(mm, ms);
    BucketKeeps(g + OfKind(ms, Group), Group, mm', mb);
    BucketKeeps(pub + OfKind(ms, Public), Public, mm', mb);
    BucketKeeps(c + OfKind(ms, Personal), Personal, mm', mb);
  }

  class Wechat {
    var deviceID: string
    var uuID: string
    var qrImagePath: string
    var redirectedURL: string
    /** `Request.BaseRequest`: the credentials of the login redirect. */
    var baseRequest: BaseRequest
    var user: User
    /** `Response.BaseResponse`: the status block of the init reply, held by reference
        that stays nil until an init reply carries one. */
    var baseResponse: Option<BaseResponse>
    var memberList: seq<Member>
    var memberCount: int
    var chatSet: seq<string>
    var syncKeyStr: string
    var contactList: seq<Member>
    var initContactList: seq<User>
    var memberMap: map<string, Member>
    var groupMemberList: seq<Member>
    var publicUserList: seq<Member>

    /** The index is keyed by name, each bucket holds only members of its
        kind that the index knows, and once logged in the credentials carry
        the session's device id. */
    predicate Valid()
      reads this
    {
      KeyedByName(memberMap)
      && Bucket(groupMemberList, Group, memberMap)
      && Bucket(publicUserList, Public, memberMap)
      && Bucket(contactList, Personal, memberMap)
      && (IsLogin() ==> baseRequest.deviceID == deviceID)
    }

    /** `NewWechat`: a fresh session with a random device id. */
    constructor (deviceRnd: nat)
      requires deviceRnd < 1000000000000000
      ensures Valid() && !IsLogin()
      ensures deviceID == DeviceId(deviceRnd)
      ensures uuID == "" && qrImagePath == "" && redirectedURL == ""
      ensures baseRequest == EmptyBaseRequest && baseResponse == None
      ensures memberMap == map[] && memberList == [] && memberCount == 0
      ensures chatSet == [] && syncKeyStr == "" && initContactList == []
      ensures groupMemberList == [] && publicUserList == [] && contactList == []
    {
      deviceID := DeviceId(deviceRnd);
      uuID := "";
      qrImagePath := "";
      redirectedURL := "";
      baseRequest := EmptyBaseRequest;
      user := User("", "", "", 0);
      baseResponse := None;
      memberList := [];
      memberCount := 0;
      chatSet := [];
      syncKeyStr := "";
      contactList := [];
      initContactList := [];
      memberMap := map[];
      groupMemberList := [];
      publicUserList := [];
    }

    /** `IsLogin`: the session holds a pass ticket. */
    predicate IsLogin()
      reads this
    {
      baseRequest.passTicket != ""
    }

    /** `fetchuuID`: on a reply with code 200 the uuid is stored. */
    method FetchUUID(reply: Reply<string>) returns (r: Outcome<Error>)
      modifies this`uuID
      ensures UUIDReply(reply).Ok? ==> r == Pass && uuID == UUIDReply(reply).value
      ensures UUIDReply(reply).Err? ==> r == Fail(UUIDReply(reply).error) && uuID == old(uuID)
    {
      if reply.Err? {
        return Fail(Transport(reply.error));
      }
      var wr := ParseJsResult(reply.value);
      var code := Get(wr, UUIDCodeKey);
      if code != "200" {
        return Fail(NoUUID);
      }
      uuID := Get(wr, UUIDKey);
      return Pass;
    }

    /** `fetchQr`: the QR code's address is the prefix plus the uuid. */
    method FetchQr() returns (r: Outcome<Error>)
      modifies this`qrImagePath
      ensures uuID == "" ==> r == Fail(QrNoUUID) && qrImagePath == old(qrImagePath)
      ensures uuID != "" ==> r == Pass && qrImagePath == QrURL + uuID
    {
      if uuID == "" {
        return Fail(QrNoUUID);
      }
      qrImagePath := QrURL + uuID;
      return Pass;
    }

    /** `GetQr`: fetch the uuid, then the QR code's address. */
    method GetQr(reply: Reply<string>) returns (path: string, r: Outcome<Error>)
      modifies this`uuID, this`qrImagePath
      ensures uuID == (if UUIDReply(reply).Ok? then UUIDReply(reply).value else old(uuID))
      ensures r == Pass <==> UUIDReply(reply).Ok? && UUIDReply(reply).value != ""
      ensures r == Pass ==> path == QrURL + uuID && qrImagePath == path
      ensures r != Pass ==> path == "" && qrImagePath == old(qrImagePath)
      ensures UUIDReply(reply).Err? ==> r == Fail(UUIDReply(reply).error)
      ensures UUIDReply(reply) == Ok("") ==> r == Fail(QrNoUUID)
    {
      r := FetchUUID(reply);
      if r.Fail? {
        return "", r;
      }
      r := FetchQr();
      if r.Fail? {
        return "", r;
      }
      return qrImagePath, Pass;
    }

    /** `waitForLogin`, with each tick's poll completing before the tick's
        check. Without a uuid it returns at once. */
    method WaitForLogin(polls: seq<Poll>) returns (w: Wait)
      modifies this`redirectedURL
      ensures uuID == "" ==> w == Returned(Pass) && redirectedURL == old(redirectedURL)
      ensures uuID != "" ==> (redirectedURL, w) == AfterPolls(old(redirectedURL), polls)
    {
      if uuID == "" {
        return Returned(Pass);
      }
      var i := 0;
      while i < |polls|
        invariant 0 <= i <= |polls|
        invariant AfterPolls(old(redirectedURL), polls) == AfterPolls(redirectedURL, polls[i..])
      {
        assert polls[i..][1..] == polls[i + 1..];
        if polls[i].Done? {
          return Returned(Fail(LoginTimeout));
        }
        redirectedURL := FetchForLogin(polls[i].reply);
        if redirectedURL != "" {
          return Returned(Pass);
        }
        i := i + 1;
      }
      return Waiting;
    }

    /** The redirect and the end of the wait of `login`: with no uuid the
        wait returns at once; otherwise it is that of the poll events. */
    static function LoginWait(uuid: string, url: string, polls: seq<Poll>): (string, Wait)
    {
      if uuid == "" then (url, Returned(Pass)) else AfterPolls(url, polls)
    }

    /** `login`: wait for the scan, then fetch the credentials from the
        redirect and stamp them with the device id. */
    method Authenticate(polls: seq<Poll>, loginReply: Reply<BaseRequest>) returns (w: Wait)
      requires Valid()
      modifies this`redirectedURL, this`baseRequest
      ensures Valid()
      ensures var (url, wait) := LoginWait(uuID, old(redirectedURL), polls);
        redirectedURL == url
        && (wait != Returned(Pass) ==> w == wait && baseRequest == old(baseRequest))
        && (wait == Returned(Pass) && url == "" ==> w == Returned(Pass) && baseRequest == old(baseRequest))
        && (wait == Returned(Pass) && url != "" && loginReply.Err? ==>
              w == Returned(Fail(Transport(loginReply.error))) && baseRequest == old(baseRequest))
        && (wait == Returned(Pass) && url != "" && loginReply.Ok? ==>
              w == Returned(Pass) && baseRequest == loginReply.value.(deviceID := deviceID))
    {
      w := WaitForLogin(polls);
      if w != Returned(Pass) {
        return;
      }
      if redirectedURL == "" {
        return;
      }
      if loginReply.Err? {
        return Returned(Fail(Transport(loginReply.error)));
      }
      baseRequest := loginReply.value.(deviceID := deviceID);
    }

    /** `webwxinit`: without a pass ticket nothing happens; otherwise the
        init reply's contacts are appended, its chat set split at commas, its
        user and status block stored and the sync key string rebuilt. A
        non-zero status does not make it fail. Reading the status block
        dereferences it, so one must be present. */
    method WebWxInit(reply: Reply<InitReply>) returns (r: Outcome<Error>)
      requires IsLogin() && reply.Ok? ==> reply.value.baseResponse.Some? || baseResponse.Some?
      modifies this`initContactList, this`chatSet, this`user, this`syncKeyStr, this`baseResponse
      ensures !IsLogin() || reply.Err? ==> unchanged(this)
      ensures !IsLogin() ==> r == Pass
      ensures IsLogin() && reply.Err? ==> r == Fail(Transport(reply.error))
      ensures IsLogin() && reply.Ok? ==>
        r == Pass
        && initContactList == old(initContactList) + reply.value.contactList
        && chatSet == Split(reply.value.chatSet, ',')
        && user == reply.value.user
        && syncKeyStr == SyncKeyString(reply.value.syncKey)
        && baseResponse == (if reply.value.baseResponse.Some? then reply.value.baseResponse else old(baseResponse))
        && baseResponse.Some?
    {
      if baseRequest.passTicket == "" {
        return Pass;
      }
      if reply.Err? {
        return Fail(Transport(reply.error));
      }
      var response := reply.value;
      if response.baseResponse.Some? {
        baseResponse := response.baseResponse;
      }
      for i := 0 to |response.contactList|
        invariant initContactList == old(initContactList) + response.contactList[..i]
        invariant baseResponse == (if response.baseResponse.Some? then response.baseResponse else old(baseResponse))
      {
        initContactList := initContactList + [response.contactList[i]];
        assert response.contactList[..i + 1] == response.contactList[..i] + [response.contactList[i]];
      }
      assert response.contactList[..|response.contactList|] == response.contactList;
      chatSet := Split(response.chatSet, ',');
      user := response.user;
      syncKeyStr := BuildSyncKey(response.syncKey);
      return Pass;
    }

    /** `Login`: `login`, then `webwxinit` when it returned without error.
        The redirect, the credentials and a failed wait or credential fetch
        are those of `Authenticate`; once it passes, the session is what
        `WebWxInit` makes of the init reply under the new credentials. */
    method Login(polls: seq<Poll>, loginReply: Reply<BaseRequest>, initReply: Reply<InitReply>) returns (w: Wait)
      requires Valid()
      requires initReply.Ok? && (IsLogin() || (loginReply.Ok? && loginReply.value.passTicket != "")) ==>
        initReply.value.baseResponse.Some? || baseResponse.Some?
      modifies this`redirectedURL, this`baseRequest, this`initContactList, this`chatSet, this`user,
               this`syncKeyStr, this`baseResponse
      ensures Valid()
      ensures var (url, wait) := LoginWait(uuID, old(redirectedURL), polls);
        redirectedURL == url
        && baseRequest == (if wait == Returned(Pass) && url != "" && loginReply.Ok?
                           then loginReply.value.(deviceID := deviceID) else old(baseRequest))
        && (wait != Returned(Pass) ==> w == wait)
        && (wait == Returned(Pass) && url != "" && loginReply.Err? ==> w == Returned(Fail(Transport(loginReply.error))))
      ensures var (url, wait) := LoginWait(uuID, old(redirectedURL), polls);
        var passed := wait == Returned(Pass) && (url == "" || loginReply.Ok?);
        (!passed || !IsLogin() || initReply.Err? ==>
           initContactList == old(initContactList) && chatSet == old(chatSet) && user == old(user)
           && syncKeyStr == old(syncKeyStr) && baseResponse == old(baseResponse))
        && (passed && !IsLogin() ==> w == Returned(Pass))
        && (passed && IsLogin() && initReply.Err? ==> w == Returned(Fail(Transport(initReply.error))))
        && (passed && IsLogin() && initReply.Ok? ==>
              w == Returned(Pass)
              && initContactList == old(initContactList) + initReply.value.contactList
              && chatSet == Split(initReply.value.chatSet, ',')
              && user == initReply.value.user
              && syncKeyStr == SyncKeyString(initReply.value.syncKey)
              && baseResponse == (if initReply.value.baseResponse.Some? then initReply.value.baseResponse
                                  else old(baseResponse))
              && baseResponse.Some?)
    {
      w := Authenticate(polls, loginReply);
      if w != Returned(Pass) {
        return;
      }
      var r := WebWxInit(initReply);
      w := Returned(r);
    }

    /** `GetContactList`: behind the login gate, store the reply's members,
        sort them into the buckets, index them and the session's own user by
        name, and add the chat set's missing people to the conversation list.
        The status checked is the init reply's. Classifying slices each name's
        first two characters, so every name must have them. */
    method GetContactList(reply: Reply<MemberReply>) returns (resp: Option<ContractResponse>, r: Outcome<Error>)
      requires Valid()
      requires IsLogin() && reply.Ok? ==> baseResponse.Some?
      requires IsLogin() && reply.Ok? && baseResponse.value.ret == StatusSuccess ==> Classifiable(reply.value.memberList)
      modifies this`memberList, this`memberCount, this`memberMap, this`groupMemberList,
               this`publicUserList, this`contactList, this`initContactList
      ensures Valid()
      ensures !IsLogin() ==> resp == None && r == Fail(NotLoggedIn) && unchanged(this)
      ensures IsLogin() && reply.Err? ==> resp == None && r == Fail(Transport(reply.error)) && unchanged(this)
      ensures IsLogin() && reply.Ok? && baseResponse.value.ret != StatusSuccess ==>
        resp == None && r == Fail(ServerError(baseResponse.value.errMsg)) && unchanged(this)
      ensures IsLogin() && reply.Ok? && baseResponse.value.ret == StatusSuccess ==>
        var ms := reply.value.memberList;
        r == Pass
        && memberList == ms && memberCount == reply.value.count
        && groupMemberList == old(groupMemberList) + OfKind(ms, Group)
        && publicUserList == old(publicUserList) + OfKind(ms, Public)
        && contactList == old(contactList) + OfKind(ms, Personal)
        && memberMap == Indexed(old(memberMap), ms)[user.userName := Member(user.userName, user.nickName, "", 0)]
        && initContactList == Reconciled(old(initContactList), chatSet, memberMap)
        && resp == Some(ContractResponse(groupMemberList, [], contactList))
    {
      if !IsLogin() {
        return None, Fail(NotLoggedIn);
      }
      if reply.Err? {
        return None, Fail(Transport(reply.error));
      }
      var status := baseResponse.value;
      if status.ret != StatusSuccess {
        return None, Fail(ServerError(status.errMsg));
      }
      resp := Refresh(reply.value.memberList, reply.value.count);
      r := Pass;
    }

    /** The success path of `GetContactList`: store the reply's members,
        classify and index them, index the session's own user, reconcile the
        chat set, and hand back the group and personal buckets. */
    method Refresh(ms: seq<Member>, count: int) returns (resp: Option<ContractResponse>)
      requires Valid() && Classifiable(ms)
      modifies this`memberList, this`memberCount, this`memberMap, this`groupMemberList,
               this`publicUserList, this`contactList, this`initContactList
      ensures Valid()
      ensures memberList == ms && memberCount == count
      ensures groupMemberList == old(groupMemberList) + OfKind(ms, Group)
      ensures publicUserList == old(publicUserList) + OfKind(ms, Public)
      ensures contactList == old(contactList) + OfKind(ms, Personal)
      ensures memberMap == Indexed(old(memberMap), ms)[user.userName := Member(user.userName, user.nickName, "", 0)]
      ensures initContactList == Reconciled(old(initContactList), chatSet, memberMap)
      ensures resp == Some(ContractResponse(groupMemberList, [], contactList))
    {
      var mb := Member(user.userName, user.nickName, "", 0);
      BucketsReloaded(memberMap, groupMemberList, publicUserList, contactList, ms, mb);
      memberList := ms;
      memberCount := count;
      ClassifyMembers();
      memberMap := memberMap[user.userName := mb];
      ReconcileChatSet();
      resp := Some(ContractResponse(groupMemberList, [], contactList));
    }

    /** The member loop of `GetContactList`. */
    method ClassifyMembers()
      requires Classifiable(memberList)
      modifies this`memberMap, this`groupMemberList, this`publicUserList, this`contactList
      ensures memberMap == Indexed(old(memberMap), memberList)
      ensures groupMemberList == old(groupMemberList) + OfKind(memberList, Group)
      ensures publicUserList == old(publicUserList) + OfKind(memberList, Public)
      ensures contactList == old(contactList) + OfKind(memberList, Personal)
    {
      for i := 0 to |memberList|
        invariant Classifiable(memberList[..i])
        invariant memberMap == Indexed(old(memberMap), memberList[..i])
        invariant groupMemberList == old(groupMemberList) + OfKind(memberList[..i], Group)
        invariant publicUserList == old(publicUserList) + OfKind(memberList[..i], Public)
        invariant contactList == old(contactList) + OfKind(memberList[..i], Personal)
      {
        OfKindStep(memberList, i, Group);
        OfKindStep(memberList, i, Public);
        OfKindStep(memberList, i, Personal);
        IndexedStep(old(memberMap), memberList, i);
        ClassifyMember(memberList[i]);
      }
      assert memberList[..|memberList|] == memberList;
    }

    /** One turn of the member loop: index the member, then append it to
        the bucket of its kind. */
    method ClassifyMember(member: Member)
      requires |member.userName| >= 2
      modifies this`memberMap, this`groupMemberList, this`publicUserList, this`contactList
      ensures memberMap == old(memberMap)[member.userName := member]
      ensures groupMemberList == old(groupMemberList) + (if KindOf(member) == Group then [member] else [])
      ensures publicUserList == old(publicUserList) + (if KindOf(member) == Public then [member] else [])
      ensures contactList == old(contactList) + (if KindOf(member) == Personal then [member] else [])
    {
      memberMap := memberMap[member.userName := member];
      if member.userName[..2] == "@@" {
        groupMemberList := groupMemberList + [member];
      } else if HasVerifyBit(member.verifyFlag) {
        publicUserList := publicUserList + [member];
      } else if member.userName[..1] == "@" {
        contactList := contactList + [member];
      }
    }

    /** The chat-set loop of `GetContactList`. */
    method ReconcileChatSet()
      modifies this`initContactList
      ensures initContactList == Reconciled(old(initContactList), chatSet, memberMap)
    {
      for i := 0 to |chatSet|
        invariant initContactList == Reconciled(old(initContactList), chatSet[..i], memberMap)
      {
        var name := chatSet[i];
        assert chatSet[..i + 1][..i] == chatSet[..i];
        var exist := FindUser(initContactList, name);
        if !exist {
          if name in memberMap {
            initContactList := initContactList + [Hydrate(memberMap[name])];
          }
        }
      }
      assert chatSet[..|chatSet|] == chatSet;
    }

    /** The inner search of the chat-set loop. */
    static method FindUser(list: seq<User>, name: string) returns (exist: bool)
      ensures exist <==> Listed(list, name)
    {
      exist := false;
      var j := 0;
      while j < |list|
        invariant 0 <= j <= |list|
        invariant forall k :: 0 <= k < j ==> list[k].userName != name
      {
        if name == list[j].userName {
          exist := true;
          break;
        }
        j := j + 1;
      }
    }

    /** `SendMsg`: behind the login gate, post a text envelope from the
        session's user, with one client id as both local and client message
        id. `isFile` is not read. */
    method SendMsg(toUserName: string, message: string, isFile: bool, now: int, rnd: nat, reply: Reply<MemberReply>)
      returns (sent: Option<Envelope>, r: Outcome<Error>)
      requires IsLogin() ==> |NatToString(rnd)| >= 6
      requires IsLogin() && reply.Ok? ==> baseResponse.Some?
      ensures !IsLogin() ==> sent == None && r == Fail(NotLoggedIn)
      ensures IsLogin() ==>
        sent == Some(Envelope(1, message, None, user.userName, ClientMsgId(now, rnd), ClientMsgId(now, rnd), toUserName))
        && r == (if reply.Err? then Fail(Transport(reply.error)) else SendOutcome(reply, baseResponse.value))
    {
      if !IsLogin() {
        return None, Fail(NotLoggedIn);
      }
      var clientMsgID := ClientMsgId(now, rnd);
      sent := Some(Envelope(1, message, None, user.userName, clientMsgID, clientMsgID, toUserName));
      if reply.Err? {
        return sent, Fail(Transport(reply.error));
      }
      var status := baseResponse.value;
      if status.ret != StatusSuccess {
        return sent, Fail(ServerError(status.errMsg));
      }
      r := Pass;
    }

    /** `UploadMedia`: behind the login gate, open the file (its size or the
        error), take the file name from the path and its one suffix, build
        the form and post it; the reply's media id is the result. */
    method UploadMedia(mediaPath: string, file: Reply<nat>, upload: Reply<string>)
      returns (form: seq<(string, string)>, mediaID: string, r: Outcome<Error>)
      ensures !IsLogin() ==> form == [] && mediaID == "" && r == Fail(NotLoggedIn)
      ensures IsLogin() && file.Err? ==> form == [] && mediaID == "" && r == Fail(Transport(file.error))
      ensures IsLogin() && file.Ok? && Extension(BaseName(mediaPath)).Err? ==>
        form == [] && mediaID == "" && r == Fail(NoSuffix)
      ensures IsLogin() && file.Ok? && Extension(BaseName(mediaPath)).Ok? ==>
        form == UploadForm(BaseName(mediaPath), Extension(BaseName(mediaPath)).value, file.value)
        && (upload.Err? ==> mediaID == "" && r == Fail(Transport(upload.error)))
        && (upload.Ok? ==> mediaID == upload.value && r == Pass)
    {
      form, mediaID := [], "";
      if !IsLogin() {
        return form, mediaID, Fail(NotLoggedIn);
      }
      if file.Err? {
        return form, mediaID, Fail(Transport(file.error));
      }
      var filename := BaseName(mediaPath);
      var fInfo := Split(filename, '.');
      if |fInfo| != 2 {
        return form, mediaID, Fail(NoSuffix);
      }
      var ext := fInfo[1];
      form := UploadForm(filename, ext, file.value);
      if upload.Err? {
        return form, mediaID, Fail(Transport(upload.error));
      }
      mediaID := upload.value;
      r := Pass;
    }

    /** The upload of `SendMedia` succeeds: the file opens, its name has one
        suffix, and the upload reply arrives. */
    static predicate Uploaded(mediaPath: string, file: Reply<nat>, upload: Reply<string>)
    {
      file.Ok? && Extension(BaseName(mediaPath)).Ok? && upload.Ok?
    }

    /** `SendMedia`: behind the login gate, upload the file, then post an
        envelope of type 1 with empty content and the media id. */
    method SendMedia(toUserName: string, mediaPath: string, file: Reply<nat>, upload: Reply<string>,
                     now: int, rnd: nat, reply: Reply<MemberReply>)
      returns (sent: Option<Envelope>, r: Outcome<Error>)
      requires IsLogin() && Uploaded(mediaPath, file, upload) ==> |NatToString(rnd)| >= 6
      requires IsLogin() && Uploaded(mediaPath, file, upload) && reply.Ok? ==> baseResponse.Some?
      ensures !IsLogin() ==> sent == None && r == Fail(NotLoggedIn)
      ensures IsLogin() && file.Err? ==> sent == None && r == Fail(Transport(file.error))
      ensures IsLogin() && file.Ok? && Extension(BaseName(mediaPath)).Err? ==> sent == None && r == Fail(NoSuffix)
      ensures IsLogin() && file.Ok? && Extension(BaseName(mediaPath)).Ok? && upload.Err? ==>
        sent == None && r == Fail(Transport(upload.error))
      ensures IsLogin() && file.Ok? && Extension(BaseName(mediaPath)).Ok? && upload.Ok? ==>
        sent == Some(Envelope(1, "", Some(upload.value), user.userName, ClientMsgId(now, rnd), ClientMsgId(now, rnd), toUserName))
        && r == (if reply.Err? then Fail(Transport(reply.error)) else SendOutcome(reply, baseResponse.value))
    {
      if !IsLogin() {
        return None, Fail(NotLoggedIn);
      }
      var form, mediaID, up := UploadMedia(mediaPath, file, upload);
      if up.Fail? {
        return None, up;
      }
      var clientMsgID := ClientMsgId(now, rnd);
      sent := Some(Envelope(1, "", Some(mediaID), user.userName, clientMsgID, clientMsgID, toUserName));
      if reply.Err? {
        return sent, Fail(Transport(reply.error));
      }
      var status := baseResponse.value;
      if status.ret != StatusSuccess {
        return sent, Fail(ServerError(status.errMsg));
      }
      r := Pass;
    }

    /** The query of the sync check at time `now`. Its `deviceid` parameter
        carries the sync key string. */
    function SyncCheckQuery(now: int): map<string, string>
      reads this
    {
      map["r" := IntToString(now), "sid" := baseRequest.wxsid, "uin" := IntToString(baseRequest.wxuin),
          "sky" := baseRequest.skey, "deviceid" := syncKeyStr, "_" := IntToString(now)]
    }

    /** `SyncCheck`: no login gate; send the query and read the reply. */
    method SyncCheck(now: int, reply: Reply<string>) returns (query: map<string, string>, resp: Result<SyncCheckResp, Error>)
      ensures query == SyncCheckQuery(now)
      ensures reply.Err? ==> resp == Err(Transport(reply.error))
      ensures reply.Ok? ==> resp == ParseSyncCheck(reply.value)
    {
      query := SyncCheckQuery(now);
      if reply.Err? {
        return query, Err(Transport(reply.error));
      }
      resp := ParseSyncCheck(reply.value);
    }
  }
}
