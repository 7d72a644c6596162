/** The `ErrorWithCode` objects the pipeline throws: a JavaScript error whose
    `code` may be missing and whose `message` each stage prefixes with its own
    name in brackets. The class in lib/error is not part of this model; only
    the two fields the pipeline reads are kept. */
module Errors {
  import opened Wrappers

  datatype Error = Error(code: Option<string>, message: string)

  /** `err.code` is truthy: present and not the empty string. */
  predicate HasTruthyCode(e: Error) {
    e.code.Some? && e.code.value != ""
  }

  /** `err.code || fallback`. */
  function CodeOr(e: Error, fallback: string): string {
    if HasTruthyCode(e) then e.code.value else fallback
  }

  /** `new ErrorWithCode(code, `${prefix}${err.message}`)`. */
  function Rethrow(prefix: string, code: Option<string>, e: Error): Error {
    Error(code, prefix + e.message)
  }

  /** Two rethrows from the same stage agree only when the errors they wrap
      have the same message. */
  lemma RethrowInjective(prefix: string, code: Option<string>, e1: Error, e2: Error)
    ensures Rethrow(prefix, code, e1) == Rethrow(prefix, code, e2) <==> e1.message == e2.message
  {
    if Rethrow(prefix, code, e1) == Rethrow(prefix, code, e2) {
      assert e1.message == Rethrow(prefix, code, e1).message[|prefix|..];
    }
  }
}
