/**
 The remote services the processor fans out to. A service is a black box:
 given an input it eventually succeeds with a string, fails with a message,
 or never completes. The time at which it settles is part of what it
 returns, so that scheduling becomes an input of the model.
 */
module Microservice {

  /** How one asynchronous call settles, with the logical time (in
      milliseconds after dispatch) at which it does. */
  datatype Completion =
    | Completes(value: string, atMs: nat)
    | Fails(message: string, atMs: nat)
    | Hangs

  /** `retrieveAsync`: an input message to the way the call settles. */
  type Service = string -> Completion

  /** Upper case over ASCII letters; every other character is kept. */
  function UpperChar(ch: char): char
  {
    if 'a' <= ch <= 'z' then (ch as int - 'a' as int + 'A' as int) as char else ch
  }

  function Upper(s: string): string
  {
    seq(|s|, i requires 0 <= i < |s| => UpperChar(s[i]))
  }

  /** The stock service: answers `id:INPUT` after a jitter of `jitterMs`. */
  function Stub(id: string, jitterMs: nat): Service
  {
    input => Completes(id + ":" + Upper(input), jitterMs)
  }

  /** A service whose call has already failed with `message`. */
  function FailingService(message: string): Service
  {
    _ => Fails(message, 0)
  }

  /** A service whose call never completes. */
  function HangingService(): Service
  {
    _ => Hangs
  }
}
