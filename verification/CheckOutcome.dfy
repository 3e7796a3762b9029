/** The outcome of one check in a report. */
module CheckOutcome {
  datatype CheckStatus = Passed | Failed | ManualReview
}
