/** The records the finance screens exchange with the backend. */
module FinanceTypes {
  import opened Wrappers

  datatype Bank = Bank(id: int, name: string, bankCode: string)

  /** A member who made a deposit. `fullName` is computed by the server from
      the name parts; the middle and maternal parts may be absent. */
  datatype Affiliate = Affiliate(
    id: int,
    fullName: string,
    firstName: string,
    secondName: Option<string>,
    paternalSurname: Option<string>,
    maternalSurname: Option<string>,
    identityCard: string)

  /** A bank-deposit voucher. Dates travel as ISO text (`depositDate` and
      `registrationDate` date-times, `period` the first day of a month);
      `amount` is an exact decimal. */
  datatype Voucher = Voucher(
    id: int,
    depositNumber: int,
    depositDate: string,
    registrationDate: string,
    amount: real,
    period: string,
    bank: Bank,
    affiliate: Affiliate)
}
