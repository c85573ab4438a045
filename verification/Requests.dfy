/** The service's request records. */
module Requests {
  import opened Basics

  datatype Caller = Caller(ip: string, userAgent: string)

  datatype NewShareRequest = NewShareRequest(
    printFilename: string,
    printBytes: Bytes,
    vendorEmail: string,
    vendorPhone: Option<string>,
    vendorDisplayName: string,
    expiresInHours: nat,
    maxDownloads: nat,
    note: Option<string>,
    cuiAttested: bool,
    createdBy: Uuid,
    caller: Caller)

  datatype LoginRequest = LoginRequest(email: string, password: string, caller: Caller)

  datatype RedeemRequest = RedeemRequest(token: string, accessCode: string, caller: Caller)
}
