/** Queues and topics as resources. */
module Resources {

  /** SQS is 1 and SNS is 2; any other number is a service without a name. */
  type Service = int

  const SQS: Service := 1
  const SNS: Service := 2

  datatype Resource = Resource(service: Service, accountID: string, name: string, endpoints: seq<string>)
}
