/** The enumerations that policies, requests and decisions share. */
module CoreTypes {
  datatype Decision = AllowAction | ReviewAction | BlockAction

  datatype ActionType = Shell | FileRead | FileWrite | Http | DbQuery | Email | Custom

  datatype ProtocolKind = Mcp | Acp | A2a | HttpFunction | Unknown
}
