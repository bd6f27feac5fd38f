/** The rows of the project -> experiment -> scan -> frame hierarchy, with the
    fields the reconciliation, permission and lock code reads or writes. */
module Entities {
  import opened Wrappers

  /** A primary key. Rows created by one import share a first component (the
      store's import epoch) followed by their position in the document, so the
      keys of one batch are distinct by construction. */
  type Uid = seq<nat>

  datatype User = User(id: Uid, username: string, email: string)

  datatype Experiment = Experiment(
    id: Uid,
    name: string,
    note: string,
    project: Uid,
    lockOwner: Option<Uid>)

  datatype Scan = Scan(
    id: Uid,
    name: string,
    scanType: string,
    experiment: Uid,
    subjectId: Option<string>,
    sessionId: Option<string>,
    scanLink: Option<string>)

  datatype Frame = Frame(id: Uid, frameNumber: nat, rawPath: string, scan: Uid)

  /** The inference result payload is not modelled. */
  datatype Evaluation = Evaluation(id: Uid, frame: Uid, evaluationModel: string)
}
