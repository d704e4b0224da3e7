/** Records shared by the ledger, the node and the verification policy. */
module Protocol {
  import opened Common

  type NodeId = Bytes
  type ContentId = Digest

  datatype VerificationPolicy =
    | TrustExecutor
    | Replicate(count: byte)
    | Quorum(executions: byte, requiredMatches: byte)

  datatype Requirements = Requirements(minimumMemory: u64, minimumStorage: u64, runtime: string, estimatedCpuCost: u64)

  datatype Task = Task(
    taskId: string, component: ContentId, input: ContentId,
    requirements: Requirements, verification: VerificationPolicy, deadline: Option<u64>)

  datatype ExecutionRecord = ExecutionRecord(
    taskId: string, executor: NodeId, component: ContentId, input: ContentId, output: ContentId,
    executionHash: ContentId, startedAt: u64, completedAt: u64)

  datatype SignedExecutionRecord = SignedExecutionRecord(
    record: ExecutionRecord, signer: NodeId, publicKey: Bytes, signature: Bytes)

  datatype LedgerEvent =
    | NodeJoined(member: NodeId)
    | NodeRevoked(member: NodeId)
    | TaskCreated(taskId: string)
    | TaskAccepted(taskId: string, executor: NodeId)
    | TaskCompleted(record: ExecutionRecord)
    | TaskVerified(taskId: string, output: ContentId)
    | ContentPublished(content: ContentId, provider: NodeId)
    | StateCheckpoint(document: string, snapshot: ContentId)

  datatype SignedEvent = SignedEvent(event: LedgerEvent, signer: NodeId, publicKey: Bytes, signature: Bytes)
}
