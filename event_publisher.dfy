/**
 * What every publisher of the import job shares (crates/importer/src/events/publisher.rs):
 * `publish(topic, payload)` either succeeds or fails with a publish error.
 */
module EventPublisher {

  /** Why a publish failed: the broker did not acknowledge the message. */
  datatype PublishError = SendFailed
}
