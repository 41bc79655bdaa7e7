/** A decoded e-mail as the indexer and the threading code see it
    (`EmailMessage`, emailindex.py:20-84). Header decoding is not part of
    this model: the fields are given, and the date is a whole number of
    seconds. */
module Mail {
  datatype EmailMessage = EmailMessage(
    messageId: string,
    subject: string,
    fromName: string,
    fromAddr: string,
    date: int,
    references: seq<string>)
}
