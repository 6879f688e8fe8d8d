/** The `ValueError`s the extraction raises, one constructor per message. */
module Errors {

  datatype ExtractError =
    | HeaderNotFound        // no 'Bank Name' row among the first rows
    | BankColumnNotFound    // no column label names the bank
    | CreditColumnNotFound  // no column label mentions credit cards
    | DebitColumnNotFound   // no column label mentions debit cards
}
