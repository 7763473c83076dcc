/**
 * The configuration values the modelled components read: the framing
 * kind of a socket type, the EQP connection mode and the profile type.
 * Java's nullable fields are `Option`s.
 */
module Config {
  import opened Wrappers

  datatype Kind = LINE_END | START_END | REGEX

  datatype LineEnding = LF | CR | CRLF

  /** A `socketTypes` entry: which framing, and the parameters of each kind. */
  datatype SocketType = SocketType(
    kind: Option<Kind>,
    lineEnding: Option<LineEnding>,
    startHex: Option<string>,
    endHex: Option<string>,
    regexPattern: Option<string>)

  /** PASSIVE listens for the tester; ACTIVE connects out to it. */
  datatype Mode = PASSIVE | ACTIVE

  datatype ProfileType = SCENARIO | RATE

  datatype Profile = Profile(profileType: Option<ProfileType>, scenarioFile: Option<string>)
}
