/** src/args.rs: the command-line configuration, parsed once and read-only afterwards. */
module Config {
  import opened Wrappers
  import opened Bytes

  /**
   * The options. The core reads `frkey` and `haproxy_protocol`; the banner
   * also shows `secret`, `timeout` and `buffer`. `aes_only`, `stream` and
   * `realip_header` are accepted and not used.
   */
  datatype Args = Args(
    addr: string,
    port: u16,
    frkey: Option<string>,
    secret: Option<string>,
    aesOnly: bool,
    haproxyProtocol: bool,
    stream: string,
    buffer: nat,
    timeout: nat,
    version: bool,
    realipHeader: string)
}
