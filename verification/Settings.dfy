/** The server's configuration as the session engine reads it, constant while the server runs. */
module Settings {
  import opened Wire

  type Text = seq<Byte>

  datatype Option<+T> = None | Some(value: T)

  type Int32 = n: int | -0x8000_0000 <= n < 0x8000_0000

  datatype Config = Config(
    limit: Int32,          // KillConnectionAfterxBytesReceived, used for both directions
    retryMax: int,         // RetryResendPacketMax
    timeoutMin: int, timeoutMax: int,
    windowMin: int, windowMax: int,
    noFileWrite: bool,
    downloadable: seq<Text>,
    uploadable: seq<Text>
  ) {
    /** Bounds that name a non-empty range. */
    predicate Consistent() {
      1 <= windowMin <= windowMax && 1 <= timeoutMin <= timeoutMax
    }

    /** The comparison is made in `unsigned long long`, so a negative limit is a huge one. */
    function Ceiling(): nat {
      if limit < 0 then limit + 0x1_0000_0000_0000_0000 else limit
    }

    predicate OverLimit(bytes: nat) {
      limit != 0 && bytes > Ceiling()
    }
  }
}
