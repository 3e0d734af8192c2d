/**
 The message shortening inside the progress handler
 (gemstone-config-webpack.js, lines 143-144): a message longer than 40
 characters is cut to its first 40 and followed by "...".
 */
module ProgressMessage {

  const MaxMessageLength: nat := 40
  const Ellipsis: string := "..."

  function Shorten(msg: string): (r: string)
    ensures |r| <= MaxMessageLength + |Ellipsis|
    ensures |msg| <= MaxMessageLength ==> r == msg
    ensures |msg| > MaxMessageLength ==>
      |r| == MaxMessageLength + |Ellipsis|
      && r[..MaxMessageLength] == msg[..MaxMessageLength]
      && r[MaxMessageLength..] == Ellipsis
  {
    if |msg| > MaxMessageLength then msg[..MaxMessageLength] + Ellipsis else msg
  }

  /** Shortening a shortened message changes nothing more. */
  lemma ShortenIdempotent(msg: string)
    ensures Shorten(Shorten(msg)) == Shorten(msg)
  {
  }

  /** What is shown always begins with the message's first characters, as
      many as the limit allows. */
  lemma ShortenKeepsPrefix(msg: string)
    ensures var n := if |msg| < MaxMessageLength then |msg| else MaxMessageLength;
      |Shorten(msg)| >= n && Shorten(msg)[..n] == msg[..n]
  {
  }
}
