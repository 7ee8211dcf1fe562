/** The vocabulary shared by every part of the settlement system. */
module Domain {

  datatype Option<+T> = None | Some(value: T)

  datatype Result<+R, +E> = Success(value: R) | Failure(error: E)

  datatype Role =
    | Employee
    | ReportingManager
    | HeadOfDepartment
    | HeadOfDivision
    | MD
    | Finance

  datatype PaidBy = ByCompany | ByEmployee

  datatype Head = Lodging | Transport | Meals | BusinessEntertainment | Misc

  datatype LineStatus = Allowed | Disallowed | Held | Rejected | Withdrawn | Memo

  datatype ClaimStatus =
    | Draft
    | PendingApproval
    | PendingFinance
    | Verified
    | ScheduledForPayment
    | Paid
    | Rejected

  datatype ApprovalDecision = Pending | Approved | Rejected | Returned

  function Min(a: int, b: int): int {
    if a < b then a else b
  }

  function Max(a: int, b: int): int {
    if a < b then b else a
  }
}
