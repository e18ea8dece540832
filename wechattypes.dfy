/** The records the web-WeChat client exchanges with the server, reduced to
    the fields the session's bookkeeping reads or writes (wechat/var.go). */
module Types {
  import opened Wrappers

  /** `StatusSuccess`: the `Ret` of a successful response. */
  const StatusSuccess: int := 0
  /** `WxResultSuccessCode`: the `window.code` of a successful login poll. */
  const WxResultSuccessCode: string := "200"
  /** `QrURL`: the QR code image of a login session is this prefix plus its uuid. */
  const QrURL: string := "https://login.weixin.qq.com/qrcode/"

  /** The XML block the redirect returns at login, stored as the session's
      credentials (`BaseRequest`). The device id is not part of the XML. */
  datatype BaseRequest = BaseRequest(
    ret: int, message: string, skey: string, wxsid: string, wxuin: int,
    passTicket: string, deviceID: string, isGrayScale: int)

  /** `new(BaseRequest)`: every field at its zero value. */
  const EmptyBaseRequest := BaseRequest(0, "", "", "", 0, "", "", 0)

  /** A conversation partner as the init response lists it (`User`). */
  datatype User = User(userName: string, nickName: string, signature: string, verifyFlag: int)

  /** An address-book entry as the contact list returns it (`Member`). */
  datatype Member = Member(userName: string, nickName: string, signature: string, verifyFlag: int)

  /** One element of the sync key (`KeyVal`). */
  datatype KeyVal = KeyVal(key: int, val: int)

  /** The status block of a JSON response (`BaseResponse`). */
  datatype BaseResponse = BaseResponse(ret: int, errMsg: string)

  /** The decoded reply of `webwxinit` (`Response`). The status block is a
      nil-able reference in the source, so it may be absent. */
  datatype InitReply = InitReply(
    baseResponse: Option<BaseResponse>, user: User, count: int,
    contactList: seq<User>, syncKey: seq<KeyVal>, chatSet: string)

  /** The decoded reply of `webwxgetcontact` and of the send endpoints
      (`MemberResp`); `count` is the embedded `Response.Count`. */
  datatype MemberReply = MemberReply(count: int, memberList: seq<Member>)

  /** What `GetContactList` hands back (`ContractResponse`). */
  datatype ContractResponse = ContractResponse(
    groupMemberList: seq<Member>, publicUserList: seq<Member>, contactList: seq<Member>)

  /** The two numbers of a sync-check reply (`SyncCheckResp`). */
  datatype SyncCheckResp = SyncCheckResp(retCode: int, selector: int)

  /** The `Msg` object of a send request. `mediaId` is present only for media. */
  datatype Envelope = Envelope(
    msgType: int, content: string, mediaId: Option<string>, fromUserName: string,
    localID: string, clientMsgId: string, toUserName: string)

  /** The errors the session reports. `Transport` carries a failure of the
      network or of decoding a reply, which the model receives as input. */
  datatype Error =
    | NotLoggedIn           // "请重新登录"
    | Transport(reason: string)
    | NoUUID                // "GetuuID: not found uuid"
    | QrNoUUID              // "FetchQr: not found uuID"
    | LoginTimeout          // "登录超时"
    | ServerError(msg: string)
    | NoSuffix              // "文件没有后缀"
    | SyncShape             // "regex error in window.redirect_uri"

  /** A server reply as the session sees it: the decoded body, or the reason
      the request or the decoding failed. */
  type Reply<T> = Result<T, string>
}
